# A verified model of the BACnet stack's command-line tools

This project models, in Dafny, the algorithms inside the command-line tools of the BACnet protocol
stack, and proves what they are for.

* **The router** of `router-mstp` (`router-ipv6` runs the same algorithm over other data links). One
  router is a class with a routing table in linked nodes and a transmit buffer (`LinkedTable.dfy`,
  `Router.dfy`), proved against a function from a table and a message to a new table and the messages
  sent (`RoutingTable.dfy`, `Routing.dfy`). Many routers are a graph of networks, with frames on the
  wire and announcements, injections and receptions in any order (`Topology.dfy`, `Internetwork.dfy`).
  What a router owes its networks for each message is said apart from that function, port by port and field
  by field (`RouterLaws.dfy`), and octet by octet, also over whole runs (`Reception.dfy`).
  Over all runs: entries are sound; on a tree they are exact; announcements complete every table, and any
  run does in which they reach the neighbours often enough; next routers stay right if and only if no
  directed message is relayed back where it came from; directed relaying is finite in any topology. On a
  tree a directed message arrives exactly as its hop count allows, unchanged and with its source named, and
  arrives also while tables are incomplete; a global broadcast reaches every network and every router's
  application exactly once; and a Who-Is-Router question, whose hops nothing counts, reaches every network
  whose way is unknown exactly once, and ends.
* **The capture tool** `mstpcap`, with `mstpcrc`. The streaming statistics are a class (`Monitor`) whose
  invariant says that every counter and maximum equals its definition over the whole history of frames.
  Tokens are conserved, the capture file reads back, the header CRC detects any one changed octet and the
  data CRC one or two neighbouring ones, and scanning a capture gives the statistics of watching it, for a
  first file always and for a later one under an exact condition; damaged records are found, counted and
  kept out of the statistics, but for a damaged header of a frame with data.
* **The object directory** of `blinkt` and `piface`. The virtual object list is the concatenation of the
  lists of its classes despite wrapping subtraction, and object names stay distinct over whole runs.
* **The file reader** `readfile`, which copies the file whatever is repeated or lost and ends at the first
  error, **the Initialize-Routing-Table-Ack** as `router-mstp` prints and
  `initrouter` parses it, **the private transfer of data blocks** with its application tags, and **the
  tour of all objects and their properties** by `epics`: it visits every object and ends unless the device
  gives an array length of 2^32 - 1, and its requests are the expected ones if and only if no error comes
  inside an element walk before the very last request.

Where the code does something other than the reader might expect, the model does what the code does. The
global broadcast never tests the hop count (its end comes from the tree); directed relay does not exclude
the arrival port; an Initialize-Routing-Table list is read from its first entry again and again; the
capture scanner takes a record whose header CRC is wrong for valid when its data CRC is right; creating an
object does not look whether its default name is in use; an error inside an element walk leaves the walk
switched on for the next property and even the next object; an Initialize-Routing-Table-Ack takes the
number of its network in eight bits; a signed `char` lets block numbers from 128 on pass the index test. All
of this is in the model, most of it with a lemma of its own.

`dafny verify dfyconfig.toml` checks the whole project.

## Model

| member | source | states |
|---|---|---|
| RoutingTable.RunRefinesMap | components/bacnet/bacnet-stack/apps/router-mstp/main.c:180-282 | whatever sequence of port and route additions is made, the lookups of the table are those of a partial map from network to port and next hop to which the same additions were made |
| RoutingTable.ApplyRefines | components/bacnet/bacnet-stack/apps/router-mstp/main.c:180-282 | each single addition is the map operation: unknown networks are added, a route only beside a known arrival network |
| RoutingTable.FirstLearnedWins | components/bacnet/bacnet-stack/apps/router-mstp/main.c:228-282 | an entry that is present is never changed by any later sequence of additions |
| RoutingTable.NetsNeverRepeat | components/bacnet/bacnet-stack/apps/router-mstp/main.c:180-282 | over every run from the empty table no network number is listed twice anywhere, ports and learned networks taken together |
| RoutingTable.SplitHorizon | components/bacnet/bacnet-stack/apps/router-mstp/main.c:361-409 | the list announced on a port holds, each once, exactly the networks routed through another port |
| RoutingTable.LearnAllExtends | components/bacnet/bacnet-stack/apps/router-mstp/main.c:676-691 | hearing a list keeps the map and adds exactly the unknown networks of the list, all under the arrival port and the announcer |
| RoutingTable.NeighbourLearnsAnnouncement | components/bacnet/bacnet-stack/apps/router-mstp/main.c:361-409 | a neighbour that decodes an announcement ends with its old map and every network the announcer routes through another port that it did not know |
| LinkedTables.LinkedTable.DnetFind | components/bacnet/bacnet-stack/apps/router-mstp/main.c:118-148 | the walk over ports and their linked lists finds the first port that lists the network, and the next router if the network was learned |
| LinkedTables.LinkedTable.PortFind | components/bacnet/bacnet-stack/apps/router-mstp/main.c:150-172 | only directly connected networks are found |
| LinkedTables.LinkedTable.PortAdd | components/bacnet/bacnet-stack/apps/router-mstp/main.c:180-219 | appends a port in place to the linked list; the table becomes the one of the specification and the nodes stay disjoint and acyclic |
| LinkedTables.LinkedTable.DnetAdd | components/bacnet/bacnet-stack/apps/router-mstp/main.c:228-282 | appends a learned network in place to the list of its port unless it is known; the table becomes the one of the specification |
| LinkedTables.Cleanup | components/bacnet/bacnet-stack/apps/router-mstp/main.c:1112-1125 | every node of the table, ports and learned networks, is freed exactly once |
| LinkedTables.DnetCleanup | components/bacnet/bacnet-stack/apps/router-mstp/main.c:289-298 | a chain of nodes is freed front to back, each once |
| NpduCodec.WireRoundTrip | components/bacnet/bacnet-stack/src/bacnet/npdu.c:98-233 | decoding an encoded network header and its content gives it back, less what the wire cannot carry |
| NpduCodec.WireIdentity | components/bacnet/bacnet-stack/src/bacnet/npdu.c:429-588 | the round trip is the identity if and only if the header is canonical |
| NpduCodec.EncodePdu | components/bacnet/bacnet-stack/src/bacnet/npdu.c:98-233 | the in-place encoder fills the front of the transmit buffer with exactly the encoded header and changes nothing behind it |
| Reception.LayoutFront | components/bacnet/bacnet-stack/src/bacnet/npdu.c:98-233 | the octets begin with version 1, the control octet bit by bit, and the destination |
| Reception.LayoutMiddle | components/bacnet/bacnet-stack/src/bacnet/npdu.c:98-233 | then the source, if both its fields are there, and the hop count, if there is a destination |
| Reception.LayoutEnd | components/bacnet/bacnet-stack/src/bacnet/npdu.c:98-233 | then the message type, the vendor of a type that is not of the standard, and the payload to the end |
| Reception.DiscardedWhen | components/bacnet/bacnet-stack/src/bacnet/npdu.c:429-588 | exactly headers cut short and malformed addresses are discarded |
| RouterLaws.UnknownIsAsked | components/bacnet/bacnet-stack/apps/router-mstp/main.c:624-633 | a question for an unknown network is passed on exactly once on every port but the arrival port, naming the network, and not on the arrival port |
| RouterLaws.ListIsAnswered | components/bacnet/bacnet-stack/apps/router-mstp/main.c:634-636 | a question without a number is answered on its arrival port with every network reached through another |
| RouterLaws.KnownIsRelayed | components/bacnet/bacnet-stack/apps/router-mstp/main.c:882-923 | a directed message with hops left goes to the addressed station on a network of the router, or one hop less to the next router; all else is as it came and its source is named |
| RouterLaws.UnknownIsFlooded | components/bacnet/bacnet-stack/apps/router-mstp/main.c:924-941 | for an unknown network every port but the arrival port gets one copy, one hop less, and every port one question |
| RouterLaws.BroadcastIsRelayed | components/bacnet/bacnet-stack/apps/router-mstp/main.c:849-880 | a global broadcast gets one copy on every port but the arrival port, unless it is a confirmed request |
| RouterLaws.WhatIsLearned | components/bacnet/bacnet-stack/apps/router-mstp/main.c:655-760 | whatever the message, the table gains exactly the unknown networks it claims, under the arrival port and its sender, and nothing from messages that are passed over |
| RouterLaws.UnknownTypeIsRejected | components/bacnet/bacnet-stack/apps/router-mstp/main.c:761-776 | an unassigned message type is rejected to its sender; the types that are known but not served get nothing |
| RouterLaws.RejectIsNotRelayed | components/bacnet/bacnet-stack/apps/router-mstp/main.c:761-776 | a Reject to a station behind another router is dropped by every router |
| RouterLaws.WhatIsHanded | components/bacnet/bacnet-stack/apps/router-mstp/main.c:985-1010 | the application layer is given exactly the local and the broadcast APDUs, but no confirmed request that is broadcast |
| Routing.KnownIsAnswered | components/bacnet/bacnet-stack/apps/router-mstp/main.c:601-638 | a Who-Is-Router for a known network is answered on its arrival port if and only if the network is in the list announced there, with that network or, for 0, with the whole list; otherwise nothing is sent |
| Routing.AckReturnsWhen | components/bacnet/bacnet-stack/apps/router-mstp/main.c:425-474 | the acknowledgement of a router with several ports goes out on its arrival port, and on no other, if and only if the number of that network fits the eight bits in which the source passes it |
| Routing.RelayedOrHanded | components/bacnet/bacnet-stack/apps/router-mstp/main.c:985-1010 | only a broadcast, or a message to a network 0 that was learned, is both relayed and handed to the application layer |
| Routing.HandleKeepsPorts | components/bacnet/bacnet-stack/apps/router-mstp/main.c:655-776 | no message of any kind changes which networks a router is connected to |
| RouterDevice.Router.Receive | components/bacnet/bacnet-stack/apps/router-mstp/main.c:963-1020 | the imperative handler, header decoding, table in linked nodes and transmit buffer included, sends exactly the PDUs, makes exactly the table changes and hands exactly the APDUs to the application layer that are specified |
| Reception.CanonicalIsHandled | components/bacnet/bacnet-stack/apps/router-mstp/main.c:963-1020 | the octets of any message the wire can carry are handled as that message, and its APDU handed over as of that message |
| Reception.IgnoredPdu | components/bacnet/bacnet-stack/apps/router-mstp/main.c:969-978 | another protocol version and a malformed header change nothing and send nothing |
| Reception.OctetsDelivered | components/bacnet/bacnet-stack/apps/router-mstp/main.c:882-906 | octets in, octets out: a directed message for a network of the router goes out there to the addressed station with its source and its APDU as it came |
| Reception.OctetsPassedOn | components/bacnet/bacnet-stack/apps/router-mstp/main.c:907-923 | octets in, octets out: to the next router, one hop less |
| Reception.OctetsFlooded | components/bacnet/bacnet-stack/apps/router-mstp/main.c:924-941 | octets in, octets out: one copy on every other port and one question on every port |
| Reception.RunOnOctets | components/bacnet/bacnet-stack/apps/router-mstp/main.c:963-1020 | in every state of every run the reception of octets is exactly the event of the run |
| Reception.Across | components/bacnet/bacnet-stack/apps/router-mstp/main.c:963-1020 | a router just started takes a station's octets on one port and sends the right octets on the other, and no others |
| RouterDevice.Router.RouteApdu | components/bacnet/bacnet-stack/apps/router-mstp/main.c:834-946 | the relay, broadcast, directed and unknown destination alike, sends exactly the specified PDUs |
| RouterDevice.Router.HandleControl | components/bacnet/bacnet-stack/apps/router-mstp/main.c:655-776 | every network-layer message is answered and learned from as specified |
| RouterDevice.Router.HandleWhoIs | components/bacnet/bacnet-stack/apps/router-mstp/main.c:601-638 | the answer, the onward questions or the silence the specification gives |
| RouterDevice.Router.SendIAmRouter | components/bacnet/bacnet-stack/apps/router-mstp/main.c:361-409 | the octets of the announcement in the transmit buffer are those of the specified list |
| RouterDevice.Router.SendInitTableAck | components/bacnet/bacnet-stack/apps/router-mstp/main.c:425-474 | the ack in the transmit buffer holds the port count and one entry a port, with the network number of the arrival port, the count and the port IDs each cut to an octet |
| RouterDevice.SentIsReceived | components/bacnet/bacnet-stack/apps/router-mstp/main.c:849-941 | every message a router sends, relayed or its own, is decoded by the next router as exactly that message |
| Internetwork.StepKeepsInv | components/bacnet/bacnet-stack/apps/router-mstp/main.c:655-946 | every announcement, injection and reception keeps the invariant: tables tell the truth, and what a frame on the wire claims has been learned by every router between it and the network |
| Internetwork.RouteSoundness | components/bacnet/bacnet-stack/apps/router-mstp/main.c:228-282 | over every run of any internetwork an entry names a port of the router through which the network really can be reached without coming back, and a next router that is on that port's network |
| Internetwork.RoutesAreExact | components/bacnet/bacnet-stack/apps/router-mstp/main.c:834-946 | on a tree, over every run, a network lies beyond a port of a router if and only if the table names that port |
| Convergence.QuietIsComplete | components/bacnet/bacnet-stack/apps/router-mstp/main.c:361-409 | when no announcement teaches anybody anything, every router has an entry for every network beyond its ports |
| Convergence.CompleteIsQuiet | components/bacnet/bacnet-stack/apps/router-mstp/main.c:676-691 | when every router has every entry, no announcement teaches anybody anything |
| Completion.Converges | components/bacnet/bacnet-stack/apps/router-mstp/main.c:361-409 | from every reachable state announcements alone complete all tables, in at most two events for each missing entry |
| Rounds.RoundsComplete | components/bacnet/bacnet-stack/apps/router-mstp/main.c:361-409 | on a tree, from every reachable state and with any other events in between, all tables are complete after one round fewer than there are routers, a round being any stretch of a run in which every announcement reaches every neighbour |
| NextHops.ReceptionIsRight | components/bacnet/bacnet-stack/apps/router-mstp/main.c:882-941 | on a tree with distinct addresses, a reception in a right state leaves tables and claims right if and only if the router does not relay a directed message, its source named, back onto the network it came from |
| NextHops.RunStaysRight | components/bacnet/bacnet-stack/apps/router-mstp/main.c:834-946 | every state of a run is right if and only if no reception of the run relays back |
| NextHops.NextHopsAreRight | components/bacnet/bacnet-stack/apps/router-mstp/main.c:834-946 | over every run from start-up without such a reception, the next router of an entry is on the network of the port and leads on to the destination |
| EchoedRelay.EchoMisleads | components/bacnet/bacnet-stack/apps/router-mstp/main.c:882-923 | such a reception does teach a wrong next router: a run of three routers around one network in which an entry does not lead to the destination |
| DirectedRelay.RelayShrinks | components/bacnet/bacnet-stack/apps/router-mstp/main.c:882-941 | whatever the table holds, a relayed copy that keeps its destination network has one hop less and at least one, and no port gets more than one copy |
| DirectedRelay.RelayingIsFinite | components/bacnet/bacnet-stack/apps/router-mstp/main.c:987-988 | in any topology, cycles included, and with any tables, the copies of directed messages are received only finitely often, within a bound given by their hop counts |
| TreeDelivery.OneHop | components/bacnet/bacnet-stack/apps/router-mstp/main.c:907-923 | with complete and right tables on a tree, a router passes a directed message to the next router of the way and to no other, one hop less, its source kept |
| TreeDelivery.DirectedDelivery | components/bacnet/bacnet-stack/apps/router-mstp/main.c:882-923 | such a message reaches its network in a single copy for the addressed station, with content, priority and reply flag as sent and its source named, if and only if its hop count is greater than the number of routers on the way |
| TreeDelivery.CopiesOnTheWay | components/bacnet/bacnet-stack/apps/router-mstp/main.c:907-923 | each copy on the way is on the next network of the way, as the message was sent, its source named, one hop less each time |
| TreeDelivery.FromStartToDelivery | components/bacnet/bacnet-stack/apps/router-mstp/main.c:882-923 | from start-up on a tree there are announcements after which, for every message of a station to any network it can reach, there is a way of routers along which it arrives if its hop count is greater than their number and is dropped if not |
| EventualDelivery.RoundsDeliver | components/bacnet/bacnet-stack/apps/router-mstp/main.c:882-923 | after any run with one round fewer than there are routers in which nothing is relayed back, whatever else happens in it, every message a station can send is delivered exactly as its hop count allows |
| EventualDelivery.RoundsExist | components/bacnet/bacnet-stack/apps/router-mstp/main.c:361-409 | from every state a run can reach there are as many such rounds as wanted, in one run that relays nothing back |
| PartialTables.ArrivesAnyway | components/bacnet/bacnet-stack/apps/router-mstp/main.c:882-941 | with tables that are right but know only part of the networks, a directed message arrives along every way its hop count is greater than, one copy of each flood going on |
| TreeDelivery.StationReaches | components/bacnet/bacnet-stack/apps/router-mstp/main.c:882-923 | what a station sends to a network behind a router of its own then reaches it |
| Broadcast.ExactlyOnce | components/bacnet/bacnet-stack/apps/router-mstp/main.c:849-880 | on a tree, whatever the tables, the order of events and the hop count, a global broadcast that is not a confirmed request is put exactly once on every network, and every copy names the original network and station |
| Broadcast.BroadcastIsFinite | components/bacnet/bacnet-stack/apps/router-mstp/main.c:849-880 | and it ends: each router takes it at most once from each of its networks |
| Broadcast.HandedOnce | components/bacnet/bacnet-stack/apps/router-mstp/main.c:996-1004 | when it is over every router that can be reached has taken exactly one copy and handed the APDU to its application layer, with network and station it came from |
| Questions.AskedOnce | components/bacnet/bacnet-stack/apps/router-mstp/main.c:601-638 | a Who-Is-Router question, which carries no hop count, ends too: on a tree, from a station or a router and whatever the tables hold by the time, it is put at most once on every network and taken at most once from each by each router |
| Questions.EverywhereOnce | components/bacnet/bacnet-stack/apps/router-mstp/main.c:601-638 | when nobody has a question left to take it has been put exactly once on every network to which there is a way of routers that did not know the answer |
| RoutingTableAck.ParseAck | components/bacnet/bacnet-stack/apps/initrouter/main.c:100-150 | the parser loop reports the port count and entries of the specification, cut-off fields and non-empty port information included |
| RoutingTableAck.AckRoundTrip | components/bacnet/bacnet-stack/apps/initrouter/main.c:108-150 | what the router prints is parsed to its end: the port count and one entry a port, in table order, port IDs counting from 1, all modulo 256 |
| RoutingTableAck.CountRight | components/bacnet/bacnet-stack/apps/router-mstp/main.c:446-471 | the count reported equals the number of entries if and only if there are fewer than 256 ports |
| RoutingTableAck.TableIsReported | components/bacnet/bacnet-stack/apps/router-mstp/main.c:732-761 | a router asked for its table, or given one, answers on a port with an eight-bit number with a message that parses to its ports |
| RoutingTableAck.EntryCutOff | components/bacnet/bacnet-stack/apps/initrouter/main.c:108-150 | of an entry cut off what is there is shown; port information that is not empty keeps the parser in its loop |
| FrameHistory.CountIsCardinality | components/bacnet/bacnet-stack/apps/mstpcap/main.c:71-119 | the counters of the specification are numbers of frames of the history that show an event |
| FrameHistory.LongestIsMaximum | components/bacnet/bacnet-stack/apps/mstpcap/main.c:171-302 | a longest delay bounds every such delay of the history and is one of them |
| FrameHistory.WhatIsTimed | components/bacnet/bacnet-stack/apps/mstpcap/main.c:193-290 | which delay each pair of neighbouring frames ends, and of which station |
| FrameHistory.DeltaMeans | components/bacnet/bacnet-stack/apps/mstpcap/main.c:121-131 | the difference of two times is the time that passed, to the millisecond |
| FrameHistory.WhatIsRepeated | components/bacnet/bacnet-stack/apps/mstpcap/main.c:193-200 | a token is repeated exactly when it is passed twice running between the same stations |
| FrameHistory.HighestPolledIsMaximum | components/bacnet/bacnet-stack/apps/mstpcap/main.c:227-240 | the highest station polled bounds all stations polled since the counters were cleared, and is one of them or 0 |
| FrameHistory.MostTokensIsMaximum | components/bacnet/bacnet-stack/apps/mstpcap/main.c:227-240 | the number of tokens between polls bounds those between every poll of a station and its next, and is attained |
| FrameStatistics.DeclaredAdvances | components/bacnet/bacnet-stack/apps/mstpcap/main.c:171-302 | one more frame takes the declared statistics of a history to those of the longer history |
| FrameStatistics.OneFrame | components/bacnet/bacnet-stack/apps/mstpcap/main.c:186-290 | one frame alone raises the counter of its kind at its source and no other |
| FrameStatistics.OneFrameMore | components/bacnet/bacnet-stack/apps/mstpcap/main.c:186-290 | and what else a token or a poll leaves in the table of each station |
| FrameStatistics.Monitor.Packet | components/bacnet/bacnet-stack/apps/mstpcap/main.c:171-302 | streaming equals declarative: after any frames every counter and maximum of every station equals its declared value over the whole history |
| FrameStatistics.Monitor.Clear | components/bacnet/bacnet-stack/apps/mstpcap/main.c:383-392 | the counters restart, the memory of the last frame and of the token holder stays |
| TokenFlow.TokensAreConserved | components/bacnet/bacnet-stack/apps/mstpcap/main.c:187-222 | tokens sent and tokens received, each summed over all stations, both equal the number of token frames |
| TokenFlow.FramesAreCounted | components/bacnet/bacnet-stack/apps/mstpcap/main.c:187-290 | each frame of the eight kinds is counted for exactly one station: the total of its counter is the number of such frames |
| TokenFlow.TokenAccount | components/bacnet/bacnet-stack/apps/mstpcap/main.c:187-222 | for each station, exactly: tokens passed on, still held or lost are those received, sent out of order or held at the start |
| TokenFlow.TokensSentBounded | components/bacnet/bacnet-stack/apps/mstpcap/main.c:187-222 | no station passes on more tokens than it received, sent out of order, or held when counting began |
| TokenFlow.NoUnderflow | components/bacnet/bacnet-stack/apps/mstpcap/main.c:227-240 | with fewer than 2^32 frames the counter kept at the last poll never exceeds the present one, so the difference never wraps |
| Crc.StampedHeaderPasses | components/bacnet/bacnet-stack/apps/mstpcrc/main.c:271-300 | a header of any length with the computed check octet passes the scanner's residue test |
| Crc.StampedDataPasses | components/bacnet/bacnet-stack/apps/mstpcrc/main.c:271-310 | data of any length with the computed check octets pass the scanner's residue test |
| Crc.OnlyStamp | components/bacnet/bacnet-stack/apps/mstpcrc/main.c:271-310 | no other check octets pass |
| Crc.StandardHeader | components/bacnet/bacnet-stack/src/bacnet/datalink/crc.c:90-107 | the example of section G.1 of ANSI/ASHRAE 135 |
| Crc.StandardData | components/bacnet/bacnet-stack/src/bacnet/datalink/crc.c:109-120 | the example of section G.2 |
| Crc.Stamp | components/bacnet/bacnet-stack/apps/mstpcrc/main.c:271-310 | the accumulating loops print exactly such octets |
| Crc.HeaderErrorDetected | components/bacnet/bacnet-stack/src/bacnet/datalink/crc.c:90-107 | changing one octet of a header that passes makes the test fail |
| Crc.DataErrorDetected | components/bacnet/bacnet-stack/src/bacnet/datalink/crc.c:109-120 | changing one octet, or two neighbouring ones, of data that pass makes the test fail |
| Crc.HeaderRegister | components/bacnet/bacnet-stack/apps/mstpcap/main.c:801-807 | the header loop of the scanner computes the CRC of the field |
| Capture.GlobalHeaderMatches | components/bacnet/bacnet-stack/apps/mstpcap/main.c:593-754 | the file header written is accepted when read |
| Capture.RecordRoundTrip | components/bacnet/bacnet-stack/apps/mstpcap/main.c:614-680 | a valid frame whose data fit the buffer is read back as it was, its time to 32 bits, and reading goes on behind it |
| Capture.LengthRoundTrip | components/bacnet/bacnet-stack/apps/mstpcap/main.c:642-659 | the data length read back is the frame's if and only if the data fitted the buffer |
| Capture.HeaderAccepted | components/bacnet/bacnet-stack/apps/mstpcap/main.c:710-754 | a file is accepted exactly when it begins as one that is written, whatever capture length it gives |
| Capture.GlobalHeaderOctets | components/bacnet/bacnet-stack/apps/mstpcap/main.c:593-612 | the octets of the file header |
| Capture.RecordOctets | components/bacnet/bacnet-stack/apps/mstpcap/main.c:614-680 | the octets of a record: time, size twice, preamble, header, data and their check octets |
| DamagedCapture.ValidWhen | components/bacnet/bacnet-stack/apps/mstpcap/main.c:802-863 | what is read is valid if and only if the check octets are the ones computed: of the data if there are any, else of the header |
| DamagedCapture.DamageIsCounted | components/bacnet/bacnet-stack/apps/mstpcap/main.c:756-873 | in a file with damaged records, perhaps cut off at its end, all whole records are found, exactly the damaged ones are invalid, and only the others reach the statistics |
| DamagedCapture.ScanDamaged | components/bacnet/bacnet-stack/apps/mstpcap/main.c:1037-1050 | so the tool ends with the right two counts and every station with the statistics of the undamaged frames |
| DamagedCapture.CutFile | components/bacnet/bacnet-stack/apps/mstpcap/main.c:756-790 | a file that ends within a record is read up to that record |
| DamagedCapture.HeaderDamagePasses | components/bacnet/bacnet-stack/apps/mstpcap/main.c:802-853 | but a damaged header of a frame with data is not noticed, and the frame may be counted for another station |
| Replay.ScanFindsAll | components/bacnet/bacnet-stack/apps/mstpcap/main.c:756-873 | a recorded capture scans back to the frames seen, in order, all valid, and the file is consumed to its end |
| Replay.ReplayEquivalence | components/bacnet/bacnet-stack/apps/mstpcap/main.c:756-873 | the scan of a first file accepts it, finds every packet, and for every station gives exactly the statistics of the live capture |
| Replay.DeclaredWraps | components/bacnet/bacnet-stack/apps/mstpcap/main.c:121-131 | no statistic notices that the file keeps only 32 bits of the time |
| LaterFiles.StatisticsAgreeWhen | components/bacnet/bacnet-stack/apps/mstpcap/main.c:171-302 | in a later file, begun with the memory of earlier frames, the statistics of a station are those of its scan if and only if the file does not begin with a repeated token for it, with a delay of it longer than all in the file, or with a first token of its own on whose holder memory and scan disagree |
| LaterFiles.LaterReplay | components/bacnet/bacnet-stack/apps/mstpcap/main.c:756-873 | the scan of a later file finds every packet and gives a station the live statistics if and only if nothing at its beginning concerns the station |
| LaterFiles.RetriesDiffer | components/bacnet/bacnet-stack/apps/mstpcap/main.c:187-222 | the count of repeated tokens differs by the one that begins the file |
| LaterFiles.OutOfOrderDiffers | components/bacnet/bacnet-stack/apps/mstpcap/main.c:187-222 | the counts of tokens out of order differ by the first token of the file, its sender compared with the holder remembered and with station 255 |
| LaterFiles.DelaysDiffer | components/bacnet/bacnet-stack/apps/mstpcap/main.c:171-302 | each longest delay is the longest of what the scan finds and the one delay ended by the first frame |
| LaterFiles.PollsAgree | components/bacnet/bacnet-stack/apps/mstpcap/main.c:227-240 | the three figures about polls always agree |
| LaterFiles.CountsAgree | components/bacnet/bacnet-stack/apps/mstpcap/main.c:171-302 | so do all counters that look at one frame only |
| LaterFiles.RepeatIsMissed | components/bacnet/bacnet-stack/apps/mstpcap/main.c:1212-1218 | it happens: a token repeated across the change of files is missed by the scan |
| CaptureTool.Recorder.Watch | components/bacnet/bacnet-stack/apps/mstpcap/main.c:614-680 | a valid frame is counted and its record appended; the file stays the header and the records of all frames since it was begun |
| CaptureTool.Recorder.NewFile | components/bacnet/bacnet-stack/apps/mstpcap/main.c:1212-1218 | after 65535 packets the counters and the file restart, the memory stays |
| CaptureTool.ReadPacket | components/bacnet/bacnet-stack/apps/mstpcap/main.c:756-873 | the reading loops give the record of the specification, short files, the data length rules and both CRC tests included |
| CaptureTool.Scan | components/bacnet/bacnet-stack/apps/mstpcap/main.c:1037-1050 | the scan feeds exactly the valid frames to the statistics and counts packets and invalid frames as specified |
| CaptureTool.WatchThenScan | components/bacnet/bacnet-stack/apps/mstpcap/main.c:614-873 | watching and then scanning: all packets are found and all 256 stations end with equal statistics |
| ObjectTable.NameIsUsed | components/bacnet/bacnet-stack/apps/blinkt/device.c:962-996 | the name lookup succeeds if and only if some object of the device has the name |
| ObjectTable.CarrierIs | components/bacnet/bacnet-stack/apps/blinkt/device.c:962-996 | with distinct names the object found is the one that has the name |
| DeviceObject.Device.FindFunctions | components/bacnet/bacnet-stack/apps/blinkt/device.c:223-238 | the first row of a type, or none |
| DeviceObject.Device.ObjectListCount | components/bacnet/bacnet-stack/apps/blinkt/device.c:844-860 | the length of the concatenated list, modulo 2^32 |
| DeviceObject.Device.ObjectListIdentifier | components/bacnet/bacnet-stack/apps/blinkt/device.c:873-918 | succeeds exactly for the indices 1 to the list's length whose row can give an instance, with that element of the concatenated list, although the 32-bit subtraction may wrap |
| DeviceObject.Device.ValidObjectName | components/bacnet/bacnet-stack/apps/blinkt/device.c:962-996 | the first object of the list with the name, if there is one |
| DeviceObject.Device.WriteObjectName | components/bacnet/bacnet-stack/apps/blinkt/device.c:1695-1808 | a name write changes exactly the named object, and only if it exists, is writable, the value is fit and the name is its own or not in use; each error if and only if its case is there; the revision |
| DeviceObject.Device.DeviceWriteName | components/bacnet/bacnet-stack/apps/blinkt/device.c:1512-1533 | the Device object writes its name only if the value is fit and no other object has it, by a second lookup of its own; a revision is counted when the name changes |
| DeviceObject.Device.WriteObjectIdentifier | components/bacnet/bacnet-stack/apps/blinkt/device.c:1454-1469 | the instance number of the Device object changes only to a device number in range, and counts a revision; the errors for the other cases, a value of another type and an undecodable one included |
| DeviceObject.Device.CreateObject | components/bacnet/bacnet-stack/apps/blinkt/device.c:1958-2010 | creates exactly when the type is known and creatable, the instance is not there, no initial values are given and there is room; each error if and only if its case is there |
| DeviceObject.Device.DeleteObject | components/bacnet/bacnet-stack/apps/blinkt/device.c:2018-2055 | deletes exactly when the type is known and deletable, the object is there and lets itself be deleted; each error if and only if its case is there |
| DeviceObject.Device.TypesSupported | components/bacnet/bacnet-stack/apps/blinkt/device.c:1253-1272 | the bit of a type, cut to eight bits, is set exactly when such an object is there |
| DeviceObject.BitsAreTypes | components/bacnet/bacnet-stack/apps/blinkt/device.c:1253-1272 | the bits are the types in the list if and only if no type beyond eight bits falls on the bit of an absent one |
| ObjectServices.MayTakeMeans | components/bacnet/bacnet-stack/apps/blinkt/device.c:1730-1748 | the uniqueness test of a name write passes if and only if the name is the object's own or not in use |
| ObjectServices.CreateKeepsNames | components/bacnet/bacnet-stack/apps/blinkt/device.c:1958-2010 | creating an object keeps all names distinct if and only if its default name was not in use |
| ObjectServices.NamesStayDistinct | components/bacnet/bacnet-stack/apps/blinkt/device.c:1695-1808 | over every run of name writes, identifier changes, creates with unused default names and deletes, all object names stay distinct |
| ObjectServices.OwnNameIs | components/bacnet/bacnet-stack/apps/blinkt/device.c:1695-2055 | after a request its own object has the name written, keeps its name under its new number, has its default name, or is gone |
| ObjectServices.OthersKeepNames | components/bacnet/bacnet-stack/apps/blinkt/device.c:1695-2055 | and every other object keeps the name it has |
| ObjectServices.OneObjectChanges | components/bacnet/bacnet-stack/apps/blinkt/device.c:1695-2055 | a request that succeeds changes one object of its own row: renamed, renumbered, added or taken away |
| ObjectServices.OtherRowsStay | components/bacnet/bacnet-stack/apps/blinkt/device.c:1695-2055 | and every other row, and the functions of its own, stay as they are |
| ObjectServices.DefaultNameCollides | components/bacnet/bacnet-stack/apps/blinkt/device.c:1958-2010 | the condition is needed: naming the device as the next channel will be called and creating it gives two objects one name |
| FileReader.CountFits | components/bacnet/bacnet-stack/apps/readfile/main.c:345-360 | a request asks for at least one octet and at most the APDU size if and only if that size is at least 21 |
| FileReader.TypicalCounts | components/bacnet/bacnet-stack/apps/readfile/main.c:350-360 | what is asked for at the typical APDU sizes |
| FileReader.Reader.AckHandler | components/bacnet/bacnet-stack/apps/readfile/main.c:92-166 | an acknowledgement changes the local file, the position and the end-of-file mark as specified |
| FileReader.Reader.Turn | components/bacnet/bacnet-stack/apps/readfile/main.c:318-396 | a turn of the loop waits for the device, gives up after the timeout, and once the device is bound sends the next request, ends the transfer or records a failed one as specified |
| FileReader.GivesUpWhen | components/bacnet/bacnet-stack/apps/readfile/main.c:386-394 | the device is given up if and only if the turns before it binds take more than the timeout |
| FileTransfer.TransferIsFaithful | components/bacnet/bacnet-stack/apps/readfile/main.c:92-166 | in every run against an honest server, with repeated acknowledgements, stray messages, errors and timeouts, the local file is the prefix of the remote one up to the position; at the end without error it is the remote file; requests are no more than its octets plus one |
| FileTransfer.RefusalEnds | components/bacnet/bacnet-stack/apps/readfile/main.c:57-88 | an Error, Abort or Reject for the request under way ends the transfer: no request is sent any more, and the next turn with the invoke ID free is the last, with the error set |
| FileTransfer.ErrorWhen | components/bacnet/bacnet-stack/apps/readfile/main.c:57-88 | the transfer is in error if and only if there was such a refusal or a request that failed |
| FileTransfer.Stops | components/bacnet/bacnet-stack/apps/readfile/main.c:362-366 | after an error or the end of the file nothing is sent and the next free turn ends the loop |
| FileTransfer.StrayRefusal | components/bacnet/bacnet-stack/apps/readfile/main.c:57-88 | refusals from others or for other requests change nothing |
| FileTransfer.StrayAck | components/bacnet/bacnet-stack/apps/readfile/main.c:92-100 | nor do such acknowledgements |
| FileTransfer.TransferCompletes | components/bacnet/bacnet-stack/apps/readfile/main.c:363-390 | against every server that gives something while there is something left the transfer ends with the remote file copied |
| ApplicationTags.TagRoundTrip | components/bacnet/bacnet-stack/src/bacnet/bacdcode.c:681-727 | every application tag, with any tag number and any 32-bit length, is read back and what follows it is left |
| ApplicationTags.UnsignedRoundTrip | components/bacnet/bacnet-stack/src/bacnet/bacdcode.c:3137-3153 | every 32-bit unsigned value is read back |
| ApplicationTags.StandardEncodings | components/bacnet/bacnet-stack/src/bacnet/bacdcode.c:681-727 | encodings the standard shows |
| ApplicationTags.UnsignedOctets | components/bacnet/bacnet-stack/src/bacnet/bacdcode.c:3067-3095 | unsigned values most significant octet first |
| PrivateTransfer.BlockServer.ProcessPT | components/bacnet/bacnet-stack/apps/ptransfer/h_pt.c:32-154 | the handler changes the blocks in place and replies as specified, a failure part-way through a write included, for a signed and an unsigned char |
| PrivateTransfer.StaysInside | components/bacnet/bacnet-stack/apps/ptransfer/h_pt.c:56-58 | the index test keeps a request within the blocks if and only if char is unsigned or the block number, in eight bits, is below 128 |
| PrivateTransfer.NumberPasses | components/bacnet/bacnet-stack/apps/ptransfer/h_pt.c:56-58 | with a signed char the block number 255 passes the test |
| PrivateTransfer.OtherBlocksKept | components/bacnet/bacnet-stack/apps/ptransfer/h_pt.c:92-146 | no request, well-formed or not, changes a block it does not name; a read changes none; a write that fails leaves the string |
| PrivateTransfer.WriteBreaksOff | components/bacnet/bacnet-stack/apps/ptransfer/h_pt.c:100-140 | a write that breaks off leaves the fields it got to in the block |
| PrivateTransfer.FailedWriteServed | components/bacnet/bacnet-stack/apps/ptransfer/h_pt.c:92-146 | and is answered with an error |
| PrivateTransfer.BadIndexServed | components/bacnet/bacnet-stack/apps/ptransfer/h_pt.c:148-151 | a block number from 8 to 127 is answered with a bad-index code and changes nothing |
| PrivateTransfer.WriteThenRead | components/bacnet/bacnet-stack/apps/ptransfer/h_pt_a.c:26-148 | what was written to a block is read back by the client: both bytes, the real, and the string up to its first NUL and 31 characters |
| PropertyWalk.Walker.BuildList | components/bacnet/bacnet-stack/apps/epics/main.c:729-765 | the list built for a device that cannot read all properties at once: the required ones, then the optional ones if they are wanted, up to the size of the array |
| PropertyWalk.FallbackAsks | components/bacnet/bacnet-stack/apps/epics/main.c:729-765 | that list holds every required and every wanted optional property and no other, in order, as far as there is room |
| PropertyWalk.Walker.ReadProperties | components/bacnet/bacnet-stack/apps/epics/main.c:729-801 | builds that list when it is needed and sends the next request: a whole property, or the element the walk has come to |
| PropertyWalk.Walker.Response | components/bacnet/bacnet-stack/apps/epics/main.c:1629-1683 | what an answer or an error does to the walk, the length taken only from an unsigned answer to index 0 of an array property |
| PropertyWalk.Walker.Advance | components/bacnet/bacnet-stack/apps/epics/main.c:1702-1759 | goes on to the next object: only the property index starts again, an element walk left on stays on |
| PropertyWalk.AdvancePlace | components/bacnet/bacnet-stack/apps/epics/main.c:1718-1757 | the search loop finds the next object that is not the Device object |
| ObjectTour.AllVisited | components/bacnet/bacnet-stack/apps/epics/main.c:1598-1759 | over every run to its end the Device object and then every other object of the list have been visited, in order and once each, and every property of each dealt with in order |
| ObjectTour.TourEnds | components/bacnet/bacnet-stack/apps/epics/main.c:1598-1759 | whatever a device answers, errors inside element walks included, the run over all objects comes to its end, unless the device gives an array length of 2^32 - 1 |
| ObjectTour.EndlessWalk | components/bacnet/bacnet-stack/apps/epics/main.c:1638-1644 | in that case, while it keeps that length, data never finish a property in this object or a later one: exactly the errors do, one each |
| ObjectTour.TourIsExact | components/bacnet/bacnet-stack/apps/epics/main.c:1598-1759 | in every run to its end without such a length the requests of all objects together are the expected ones, an array that cannot be read whole taking indices 0, 1 to its length exactly once each, if and only if no error came inside an element walk of any object, but for one that answers the last request of the last property of all |
| ObjectTour.AskedIsElement | components/bacnet/bacnet-stack/apps/epics/main.c:462-466 | the assertion about the index of an answer holds in every state of every run |
| ObjectTour.WalkBegins | components/bacnet/bacnet-stack/apps/epics/main.c:1644-1683 | a long array that fails with an error worth another try is asked for at index 0; everything else goes on to the next property, asked for whole |
| ObjectTour.WalkGoesOn | components/bacnet/bacnet-stack/apps/epics/main.c:1629-1644 | element after element up to the length given, then the next property whole |
| ObjectTour.ErrorMisleads | components/bacnet/bacnet-stack/apps/epics/main.c:1644-1683 | after any error inside an element walk the next property, or the first of the next object, is asked for at the index reached, not whole |
| ObjectTour.ErrorMisleadsRun | components/bacnet/bacnet-stack/apps/epics/main.c:1644-1683 | a run from the start in which the next property is asked for so |
| ObjectTour.ErrorMisleadsNextObject | components/bacnet/bacnet-stack/apps/epics/main.c:1311-1327 | and one in which the next object is |

## Left out

- The ESP32 start-up, drivers, sockets, serial ports, named pipes, signals, printing and the parsing of arguments: receiving and sending are method calls and events, clock times are parameters.
- The single-request clients (read property, reinitialize and the like): one send-and-wait loop each, over a transaction state machine that is not part of this model.
- `router-ipv6`: the same table and relay code over other data links; it has no separate model.
- RouterDevice.Router.Receive: assumes that what is to be sent fits the transmit buffer, which the source does not test, and that the two home networks are distinct and not 0; an allocation failure is not modelled. What the application layer does with an APDU is not part of this model.
- RouterDevice.Router.HandleControl: an Initialize-Routing-Table list shorter than one entry is answered without being read, where the source reads past the received octets; only the first entry of a longer list is ever learned, as in the source.
- RoutingTableAck.ParseAck: a port information field that is not empty makes the source loop for ever; the model reports that and stops.
- Internetwork.RouteSoundness: stations are honest, that is, a frame that is not from a router names no source network and lists no networks; frames may be lost, repeated and reordered.
- Broadcast.ExactlyOnce: nothing else is on the wire; an empty APDU counts as unconfirmed, where the source looks at an octet behind the message.
- The delivery theorems speak of one message at a time, handed to the first router of its way, with complete tables.
- FrameStatistics.Monitor.Clear: does not reset the device numbers and the count of invalid frames, which are not in the class; nor `max_info_frames`, which is only cleared and printed.
- FrameStatistics.Monitor.Packet: keeps every field of the table that this function changes, except that the device number taken from an I-Am message, which is only printed, is not kept.
- Capture.RecordRoundTrip: is about valid frames; records of invalid and partial frames are written with short headers that the reader does not understand. Files are octets least significant first, as on the usual machines.
- CaptureTool.Recorder.NewFile: the test of the packet count that calls it, the file names and the printing.
- Crc.HeaderErrorDetected: is about the bitwise form; the table-driven variant of `crc.c`, chosen at compile time, is not modelled.
- DeviceObject.Device.ObjectListIdentifier: assumes that the list has fewer than 2^32 elements; no row of either device has an iterator function, and the model has none.
- DeviceObject.Device.WriteObjectName: the rows' own write functions are answers of the request (taken or not), with the name stored when taken; other properties do not touch names or instance numbers.
- ObjectServices.NamesStayDistinct: a row's create function keeps its instance numbers apart.
- `Device_Timer`, ReadRange, the other properties of the Device object and the internals of the child objects.
- FileReader.Reader.AckHandler: opening, seeking and writing the local file succeed, except that a file that is not there cannot be opened for update and a negative position cannot be reached.
- PrivateTransfer.BlockServer.ProcessPT: stops where a signed `char` indexes in front of the blocks, which C leaves undefined; the real is its 32 bits; a request that ends inside a field is refused, where the source reads on in the receive buffer. The client program in `ptransfer/main.c` is not complete C and is represented by its encodings.
- ObjectTour.TourIsExact: requests are always sent and answered, timeouts do not occur; runs in which a device gives an array length of 2^32 - 1 are the subject of `EndlessWalk`. The object list and which properties are arrays are parameters.
- ObjectTour.AllVisited: an object whose properties were all read at once counts as one without properties to ask for; what a walk left on does to the printing of such an answer, where an assertion about the index fails, is not modelled, and neither is the device heading.
- Packing for the LED board (`blinkt.c`), framing for the IP module of the other router, the Perl bindings and the fuzz drivers.
