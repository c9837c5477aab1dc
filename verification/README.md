# natporte: a verified model

natporte is a carrier-grade NAT. A packet thread rewrites packets with a doubly indexed session table; a pool server
hands out WAN ports over a line-framed TCP stream; two threads carry the requests and releases between them. This
project models that system in Dafny and proves what it is built to keep.

| file | what it models |
|---|---|
| Arena, RbTheory, RbMemory, RbTree | the intrusive red-black tree: entries with left, right, parent and colour in one memory, relinked in place by the rotation, insertion and removal loops |
| Sessions, SessionTable, Lookups | mappings, the packed keys, and the table made of two such trees over the same nodes |
| Ring | the bounded circular queue between the threads |
| Framing | the two ways the byte streams are cut back into lines |
| Checksum, Packets, PacketBuffers, IpHeader | the full and the incremental Internet checksum, on values and in the packet buffer |
| ByteOrder | host and network order, and why a table can be searched in either |
| TcpTracker, Verdict | the TCP session tracker and the packet traces that lead to each of its states; the return codes |
| Alias, PacketThread | outbound and inbound translation, as functions and as the code that runs on the buffer and the trees |
| Wire | which bytes the code reads and writes and which codes it returns, with the numbers of the standards |
| PacketLimits | packets, byte by byte, on which the incremental checksum goes wrong or which have the wrong session released |
| Pool, PoolAnswers, PoolRuns, Entry | the port pool of one protocol, as functions, what it answers and keeps over runs, and as the object that changes in place |
| Protocol, ProtocolFifo, ProtocolReplica | the NAT and the server as one step system; the order of its queues; the table as a copy of the server's |
| ProtocolLimits, ProtocolPlans, ProtocolRaces | the releases by which table and server come apart; two items on their way at once, under every schedule; what becomes of a second release |
| Handlers, ServerAnswers, Threads | the code of the sender, the receiver and the server that carries out those steps, and what the server answers |

How the parts fit: every method is proved equal to a function or set of mappings (`Table`, `State`, `Contents`, `View`),
and the large results are proved about those. `Threads` ties the server's handler to `Protocol.Answer`, `Handlers` the
sender's and the receiver's, with their trees in network order and their second translation of a held packet, to
`Protocol.Compose` and `Protocol.Apply`; `PacketThread` ties the buffer code to `Aliases.Lan2Wan` and `Aliases.Wan2Lan`.

## Main results

- **Red-black trees.** Insertion and removal, with their fix-up loops and parent relinking, end in a tree with search
  order, consistent links, black root, no red-red edge and equal black heights, whose nodes are exactly the old ones plus
  or minus one. Search takes at most 2 log2(n + 1) steps. RB_MIN and RB_NEXT visit every node once, in order.
- **Session table.** The two trees always hold the same nodes and form a bijection between LAN and WAN endpoints, also
  when a half-done insertion is rolled back.
- **Protocol.** Over every run each reply meets the packet or node its message was written for, although no line
  carries an identifier, and the threads, however they are scheduled, make no more steps than there is work and can go
  on until it is done. Over every orderly run, the replies on the wire applied to the NAT table give exactly the
  server's mappings, with no collision on the way, no thread runs into one of its exit paths, and once the threads have
  done their work the table is the server's. Orderly (`Protocol.Directed`) means that a held packet is sound when the
  sender takes it up, and that no session gets a second release while one of it is under way. What happens otherwise is in
  `ProtocolLimits` for a packet that is not sound, and in `ProtocolRaces` for each of the four ways in which a second
  release can come, under every schedule of the threads.
- **Port pool.** Over every sequence of operations each port of a pool address is free, held by exactly one entry, or was
  dropped by a request over the limit. A released port is handed out again only after every port that was free then.
- **Checksums.** The incremental update equals recomputation modulo 65535 exactly when the two endpoint sums carry out of
  32 bits alike.
- **TCP tracker.** A session is CLOSED exactly after the traces described phase by phase in `Ended`, and RESET exactly
  when an RST came before that; over any mix of packets through both translation functions each session follows its own
  trace.
- **Translation.** A reply to a translated packet is delivered to the address and port the packet came from, and nothing
  else is.
- **Bytes and codes.** Endpoints, flags and checksums are read and written at the offsets of RFC 791, RFC 9293 and RFC 768,
  and every other byte of a translated packet is kept; for every packet that gets to the lookup, and for every one that
  does not, the return code is told by bytes and sessions. A first SYN or UDP packet does ask for a mapping, and the
  server grants one exactly when the host has one already, or a port is free and the host is under its limit.
- **Framing.** However the stream is cut into reads, both loops hand on exactly its complete lines.

## What does not hold, and exactly when it does

- The incremental checksum is wrong when only one of the two sums address + port reaches 2^32 (`Packets.FastUpdateExact`,
  `Packets.TranslateVerifies`; a valid packet that leaves invalid in `PacketLimits.CarryBreaks`).
- A UDP packet sent without a checksum usually leaves with a meaningless one (`Packets.NoChecksumKept`,
  `PacketLimits.ChecksumAppears`).
- The receiver's splitter gives nothing for a text that is empty or starts with a newline, after which the code reads the
  last element of an empty vector (`Framing.SplittersAgree`, `Framing.DefinedOnEveryCutting`).
- A release goes to the wrong session when a reset packet from outside has another session's LAN endpoint as its source:
  the sender tries that first (`ProtocolReplica.ComposeExact`). From a table in step with the server, such a packet leaves
  the two apart unless the other session was closed or reset and the packet would have been let out again
  (`ProtocolLimits.ReleaseExact`, `ProtocolRaces.ReleaseEverySchedule`; a run from the start in
  `ProtocolLimits.MisdirectedRelease` and the packet itself in `PacketLimits.MisdirectedBytes`). They stay apart until the
  timer of the session left over fires (`ProtocolLimits.ApartUntilTimer`).
- A release of a session in the unknown state is done by the server and not by the NAT, because the acknowledgement runs
  into the unknown state again (`ProtocolLimits.ReleaseExact`, `ProtocolLimits.UnknownRelease`, `PacketLimits.LostBytes`).
- A timer that fires while the release of a reset session is under way makes a thread use a freed node exactly if that
  release was sound: the sender, if it takes the timer's item up after the receiver freed the node, and otherwise the
  receiver (`ProtocolRaces.SecondRelease`). Two timers of one session always do (`ProtocolRaces.TimerTwice`).
- A packet held back while the release of its session's timer is under way makes the sender use NULL exactly if it is
  taken up after the node went and no other session has one of its endpoints (`ProtocolRaces.ResetAfterTimer`).
- So does a second packet held back for a session in the unknown state, exactly if it is also an RST that came before the
  receiver was done with the first (`ProtocolRaces.HeldTwice`).
- Hosts keep one WAN address when an address is added to the pool, or deleted from it, exactly under a condition on the
  hosts' last octets (`PoolRuns.SharedAfterAdd`, `PoolRuns.SharedAfterDel`; failing pools in `PoolRuns.SharedCanBreak`).
- Every refused request over the limit loses a port for good (`PoolRuns.RefusedRequest`), and a single host can empty the
  free list of its address that way (`PoolRuns.Starvation`, and `PoolRuns.PortsAreLost` for a pool where it happens).
- With a limit of zero connections a host still gets its first one (`PoolRuns.LimitHolds`, `PoolRuns.ZeroIsOne`).

## Model

| member | source | states |
|---|---|---|
| RbTrees.RbTree.RotateLeft | src/structure.h:120-138 | relinking three nodes and the root or the grandparent gives the memory of the rotated tree, in its place |
| RbTrees.RbTree.RotateRight | src/structure.h:140-158 | the mirror image |
| RbTrees.RbTree.InsertColor | src/structure.h:179-220 | from one red node whose only fault may be a red parent, the loop ends in a balanced tree with the same nodes in the same order |
| RbTheory.RecoloredRedAt | src/structure.h:186-192 | with a red uncle, recolouring moves the only possible fault two levels up and keeps all black heights |
| RbTheory.InnerRedAt | src/structure.h:193-198 | an inner red child becomes an outer one without touching order or heights |
| RbTheory.SettledRedAt | src/structure.h:199-200 | the rotation at the grandparent puts an outer red child under a black parent; order and heights stay |
| RbTrees.RbTree.Insert | src/structure.h:367-395 | a new key goes in at one position of the sorted contents and the tree stays valid; a key in use changes nothing and its holder comes back |
| RbTrees.RbTree.RemoveColor | src/structure.h:222-298 | from a subtree one black node short, the loop ends in a balanced tree with the same nodes in the same order |
| RbTheory.LoweredLeftShort | src/structure.h:229-234 | a red sibling becomes the grandparent: the short side then has a black sibling and a red parent, order unchanged |
| RbTheory.RaisedLeftShort | src/structure.h:235-241 | a black sibling with black children turned red moves the missing black up one level |
| RbTheory.TurnedLeftShort | src/structure.h:243-252 | a red inner child of the sibling is rotated above it, which leaves a black sibling with a red outer child |
| RbTheory.PaidLeftDone | src/structure.h:253-258 | the last rotation makes up for the missing black: all heights and colours are right again |
| RbTrees.RbTree.RemoveInner | src/structure.h:310-352 | a node with two children is replaced by its successor, spliced out below, and the contents lose only that node |
| RbTrees.RbTree.Remove | src/structure.h:300-365 | any member comes out: the tree stays valid and its sorted contents are the old ones without that position |
| RbTrees.RbTree.Find | src/structure.h:397-413 | the node with the key, or NULL exactly when there is none, in at most 2 log2(n + 1) steps |
| RbTheory.WalkBound | src/structure.h:397-413 | in a balanced tree of n nodes 2^steps is at most (n + 1)^2 for every walk down |
| RbTrees.RbTree.Min | src/structure.h:477-490 | the first node of the contents, or NULL for the empty tree |
| RbTrees.RbTree.Next | src/structure.h:435-454 | the node after a member in the contents, or NULL after the last |
| RbTrees.RbTree.Count | src/structure.h:1049-1057 | iteration visits exactly the contents, in order, and counts them |
| Sessions.UnpackOfPack | src/structure.h:574-603 | protocol, port and address come back out of a packed key |
| Sessions.PackInjective | src/structure.h:589-603 | two endpoints have the same key only if protocol, port and address are the same |
| Sessions.InsertedBijective | src/structure.h:664-685 | a mapping gets in exactly when it was in or no other of its protocol has its LAN or WAN endpoint, and the table stays a bijection |
| SessionTables.SessionTable.TableBijective | src/structure.h:664-723 | no two mappings of a valid table share a LAN key or a WAN key |
| SessionTables.SessionTable.Rollback | src/structure.h:675-682 | taking the node out of the LAN tree again restores its old contents |
| SessionTables.SessionTable.Insert | src/structure.h:664-685 | the node goes into both trees or neither; it is refused exactly when a member has one of its keys, and such a member comes back |
| SessionTables.SessionTable.InsertMapping | src/addrpool.h:211-274 | the table becomes the old one with the mapping, unless one of its sides is taken |
| SessionTables.SessionTable.FindL2W | src/structure.h:726-732 | the member with that protocol and LAN endpoint, NULL exactly when there is none |
| SessionTables.SessionTable.FindW2L | src/structure.h:734-740 | the member with that protocol and WAN endpoint, NULL exactly when there is none |
| SessionTables.SessionTable.DeleteForPoint | src/structure.h:687-701 | the member leaves both trees and nothing else does |
| SessionTables.SessionTable.DeleteForValue | src/structure.h:704-723 | exactly the given mapping leaves the table; NULL exactly when it was not there |
| SessionTables.SessionTable.Count | src/structure.h:1049-1057 | the number of members |
| Lookups.FindsOwn | src/structure.h:726-740 | in a table with distinct keys either search finds a session by its own endpoint |
| Rings.Ring.constructor | src/ring.h:35-61 | an empty ring of the given size, or of the default size for zero, all slots empty |
| Rings.Ring.Push | src/ring.h:63-97 | one element more at the end, RING_OVER exactly when size - 1 are in it; slots not in use stay empty |
| Rings.Ring.SPush | src/ring.h:100-126 | the same with the caller's buffer |
| Rings.Ring.Pop | src/ring.h:129-153 | the oldest element, RING_EMPTY exactly when there is none; its slot is cleared |
| Rings.Ring.Take | src/ring.h:155-177 | the oldest element, once there is one |
| Rings.Drive | src/ring.h:63-177 | a ring driven by any list of pushes and pops returns the codes and the elements of a bounded queue; what was popped followed by what is inside is what was there and what was accepted |
| Rings.FirstInFirstOut | src/ring.h:63-177 | over any interleaving, that queue gives out what was accepted in order, within the capacity, and one code a call |
| Rings.ComesOut | src/ring.h:63-153 | copied data comes out as given, no data or size zero as an empty buffer, a handed slot unchanged |
| Rings.CodesInOrder | src/ring.h:63-153 | each call returns 0, or -2 when the queue holds its capacity, or -3 when it is empty, in the order of the calls |
| Framing.Split | src/utils.hpp:389-416 | the pieces between newlines, or nothing for a text that is empty or starts with one |
| Framing.LinesGiveBack | bin/pool_server:222-237 | the lines and the rest, a newline after each line, are the stream |
| Framing.SplittersAgree | src/utils.hpp:389-416 | the receiver's splitter and the server's agree exactly on texts that are not empty and do not start with a newline |
| Framing.Reassembly.ServerData | bin/pool_server:222-249 | whatever the read, the lines handed on and the rest kept are those of the stream so far |
| Framing.Reassembly.ReceiverData | src/addrpool.h:154-158 | the same, and the reads for which it is not defined |
| Framing.AnyCutting | src/addrpool.h:146-158 | however a stream without empty lines is cut into reads, exactly its lines come out and its rest is kept |
| Framing.DefinedOnEveryCutting | src/addrpool.h:565-569 | the receiver survives every cutting of a stream exactly when the stream has no empty line |
| Framing.MessagesArrive | bin/pool_server:226-237 | messages written one per line are the messages processed, with nothing left over |
| Checksums.Checksum | src/alias.h:507-530 | the complement of the folded sum of the big-endian words, an odd byte padded, without overflow |
| Checksums.ChecksumVerifies | src/alias.h:507-530 | a sum and its checksum together are zero modulo 65535 |
| Checksums.TwoFoldsSuffice | src/alias.h:625-636 | for up to five halfwords two folds lose nothing |
| Checksums.DiffChecksum | src/alias.h:612-637 | the base plus the old minus the new halfwords, modulo 65535, for either sign of the accumulator |
| Checksums.ByteOrderIndependent | src/alias.h:612-637 | updating byte-swapped words is the byte swap of updating the words, modulo 65535 (section 2 of RFC 1071) |
| Packets.TranslateShape | src/alias.h:1193-1197 | one address, one port and the checksum are rewritten, every other byte is kept |
| Wire.TranslatedBytes | src/alias.h:651-663 | the new endpoint stands in network order at 12 and 0 or at 16 and 2; the checksum is at 16 of a TCP and at 6 of a UDP segment; every other byte is kept |
| Wire.RecomputedBytes | src/alias.h:571-579 | checksum_transport writes the same two bytes only |
| Wire.EndpointsRead | src/alias.h:1085-1101 | source and destination are the address fields at 12 and 16 and the port fields at 0 and 2 of the segment, in network order |
| Wire.SumWithPseudo | src/alias.h:544-566 | the transport sum is that of the pseudo header of section 4.2 of RFC 3022 followed by the segment |
| Wire.RecomputedStandard | src/alias.h:544-585 | a recomputed segment sums to all ones with that pseudo header |
| Wire.ChecksumExample | src/alias.h:507-530 | the example of section 3 of RFC 1071 |
| Packets.TranslateSum | src/alias.h:639-663 | the transport sum changes by exactly 256 times the difference of the two carries, modulo 65535 |
| Packets.FastUpdateExact | src/alias.h:651-658 | the sum is kept modulo 65535 exactly when both sums address + port carry out of 32 bits or neither does |
| Packets.NoCarry | src/alias.h:651-658 | an address not ending in .255.255 never carries |
| Packets.NoChecksumKept | src/alias.h:656-658 | when a UDP checksum of zero stays zero, and so when a packet without a checksum gets one |
| Packets.TranslateVerifies | src/alias.h:639-663 | a packet that verified before translation verifies after it exactly if the carries are equal |
| PacketLimits.CarryBreaks | src/alias.h:651-658 | a 28-byte UDP packet that is admitted, verifies, is translated and verifies no longer |
| PacketLimits.ChecksumAppears | src/alias.h:656-658 | an admitted UDP packet without a checksum that is translated into one with a checksum |
| PacketLimits.MisdirectedBytes | src/alias.h:866-893 | the bytes of the misdirected RST, which wan2lan_alias holds back for the second session |
| PacketLimits.LostBytes | src/alias.h:1178-1181 | the bytes of an acknowledgement before the SYN+ACK, which lan2wan_alias holds back for its own session |
| Packets.TwiceVerifies | src/alias.h:639-663 | after two translations a packet verifies exactly if the two carry differences cancel out |
| ByteOrder.NetTwice | src/addrpool.h:217-220 | htonl and htons undo themselves |
| ByteOrder.NetFinds | src/addrpool.h:217-239 | a table keyed in host order is keyed in network order, and either search finds the same session |
| Packets.RecomputeVerifies | src/alias.h:544-585 | the full recomputation always verifies |
| Packets.FastIsSlow | src/alias.h:544-663 | the fast update and the full recomputation give the same packet, up to the two forms of zero |
| PacketBuffers.SetDiffChecksum | src/alias.h:639-663 | the checksum field of the segment is updated in the buffer, and no other byte |
| PacketBuffers.ChecksumTransport | src/alias.h:544-585 | the buffer becomes the packet with its checksum recomputed |
| IpHeaders.IpUpdateVerifies | src/alias.h:648-650 | with IP_CHECKSUM, a header that verified before its address is rewritten verifies after, whatever the addresses |
| IpHeaders.IpUpdateBytes | src/alias.h:648-650 | only the address and ip_sum are written |
| TcpTracker.OpenedRun | src/alias.h:141-505 | SYNACK_RECIVED exactly after a first SYN and nothing but packets that wait for the SYN+ACK |
| TcpTracker.OpenRun | src/alias.h:141-505 | ESTABLISHED exactly after such a trace, a SYN+ACK and packets without FIN or RST |
| TcpTracker.HalfRun | src/alias.h:141-505 | half closed by one side exactly after such a trace and a FIN from that side not yet answered by a FIN |
| TcpTracker.UnansweredRun | src/alias.h:141-505 | FIN_WAIT and FINACK_WAIT are told apart: the first exactly while the other side has sent nothing since the FIN |
| TcpTracker.BothFinRun | src/alias.h:141-505 | closing exactly after such a trace and a FIN from the other side not yet acknowledged |
| TcpTracker.ClosedExactly | src/alias.h:141-505 | CLOSED exactly after the traces that go through all phases in order and end in the last acknowledgement |
| TcpTracker.ClosedNeeds | src/alias.h:141-505 | a SYN, a SYN+ACK, a FIN, a FIN from the other side and an ACK, in this order, and no RST until then |
| TcpTracker.ResetExactly | src/alias.h:844-867 | RESET exactly when some RST arrived before the session was closed |
| TcpTracker.FinalForEver | src/alias.h:1128-1151 | CLOSED and RESET are never left |
| Aliases.Outbound | src/alias.h:1063-1263 | a translated outbound packet belongs to the session of its source and leaves with that session's WAN endpoint |
| Aliases.Inbound | src/alias.h:794-948 | a packet to a session's WAN endpoint is translated to its LAN endpoint exactly when its TCP state is not reset or lost by it |
| Aliases.ReplyReachesSender | src/alias.h:794-1263 | a reply to a translated packet comes in for exactly the address and port that packet came from, other bytes unchanged |
| Aliases.EstablishedForwards | src/alias.h:866-908 | for UDP, and for an established session without RST, every such reply is forwarded |
| Aliases.OnlyReplies | src/alias.h:794-1263 | of the inbound packets translated, exactly those to the WAN endpoint used outbound are delivered to the sender |
| Aliases.Hairpin | src/alias.h:1098-1262 | a packet for the NAT itself that is let through is UDP, taken in for a session and then sent out for its sender's own |
| Aliases.TranslationVerifies | src/alias.h:847-947 | a packet that verified before translation verifies after it exactly if the endpoints of its session carry alike; a hairpin exactly if the errors made with its two sessions cancel out |
| Aliases.FlagsRead | src/alias.h:141-150 | FIN is 1, SYN 2, RST 4 and ACK 16 of the flag byte; PSH and the high bits change nothing |
| Aliases.HandleTracks | src/alias.h:844-908 | a packet moves only the state of the session it is looked up to, as the tracker says for the flags at 13 of its segment, and no mapping |
| Aliases.SessionFollowsTrace | src/addrpool.h:237-239 | over any mix of packets, a session created in SYN_SENT is where its own trace leads, read from the flag bytes, and the mappings stay |
| Wire.AdmittedExactly | src/alias.h:718-746 | a packet gets to the lookup exactly when it is longer than 20 bytes, of version 4, not from or to a refused address and not too long with DF set; otherwise the code is -2, -3 or -5 |
| Wire.AsksForMapping | src/alias.h:1111-1127 | without a session, TCP asks for a mapping exactly with flag byte 2 and not to the NAT itself, UDP always unless to the NAT itself and not taken in as a hairpin; every other code too |
| Wire.TcpCode | src/alias.h:844-908 | code, packet and new state for a TCP packet of a session, in both directions |
| Wire.UdpCode | src/alias.h:1216-1262 | the same for a UDP packet of a session |
| Wire.HairpinCode | src/alias.h:1216-1262 | a hairpin leaves for the session it was addressed to with its sender's WAN endpoint |
| Wire.InwardUnknown | src/alias.h:836-843 | from outside without a session: for the NAT itself or for nobody |
| Wire.OtherProtocol | src/alias.h:1264-1340 | other protocols than TCP and UDP are not supported |
| PacketThreads.Nat.WanToLan | src/alias.h:794-948 | return code, packet buffer and session flags are those of Wan2Lan |
| PacketThreads.Nat.LanToWan | src/alias.h:1063-1263 | return code, packet buffer and session flags are those of Lan2Wan, hairpins included |
| Pools.AssignKeeps | bin/entry.js:221-276 | a request keeps lists without repeats, entries filed and unique, and every port accounted for |
| Pools.ReleaseKeeps | bin/entry.js:336-386 | so does a release, which is done exactly for an entry the host has |
| Pools.AddKeeps | bin/entry.js:112-168 | so does adding an address |
| Pools.DelKeeps | bin/entry.js:63-110 | so does deleting one, with the entries that use it |
| Pools.PortsConserved | bin/entry.js:63-411 | after any operations each port of a pool address is free once, held by one entry, or dropped, and only one of these |
| PoolAnswers.RequestKnown | bin/entry.js:221-233 | a request for an endpoint with an entry gets it, and changes nothing |
| PoolAnswers.RequestNew | bin/entry.js:235-276 | with a free port at the address picked, a new request is granted exactly when its host is unknown or has fewer than maxConnection entries; the oldest port, and the whole new pool either way |
| PoolAnswers.RequestNoPort | bin/entry.js:235-250 | without one it is refused, and nothing changes |
| PoolAnswers.ReleaseKnown | bin/entry.js:362-384 | a release takes out the entry and puts its port last |
| PoolAnswers.ReleaseUnknown | bin/entry.js:361-386 | any other release changes nothing; for a host never seen it throws |
| PoolAnswers.AddressAdded | bin/entry.js:112-168 | a new address comes last with all its ports free in order |
| PoolAnswers.AddressDeleted | bin/entry.js:75-110 | an address goes with its list, and every host keeps its other entries |
| PoolRuns.QueueLaw | bin/entry.js:400-411 | while its address stays in the pool the free list is a queue: ports taken then list equals list then ports returned |
| PoolRuns.ReleasedGoesLast | bin/entry.js:374-411 | a released port is handed out again only after all ports that were free at that time, in their order |
| PoolRuns.RepeatedRequest | bin/entry.js:205-233 | a request answered once is answered the same again, and changes nothing |
| PoolRuns.EntryFound | bin/entry.js:205-219 | a request finds an entry exactly when it is the one its host has for that LAN endpoint |
| PoolRuns.MappingLasts | bin/entry.js:205-276 | a mapping stays until it is released or its address leaves the pool |
| PoolRuns.LimitHolds | bin/entry.js:252-264 | no host exceeds a limit of at least one; a limit of zero is exceeded by the first request |
| PoolRuns.SharedRun | bin/entry.js:388-398 | while the pool stays as it is all mappings of a host have one WAN address |
| PoolRuns.SharedAfterAdd | bin/entry.js:388-398 | a new address keeps that exactly when every host with mappings has the same last octet modulo n and modulo n + 1 |
| PoolRuns.SharedAfterDel | bin/entry.js:75-110 | deleting one keeps it exactly when every host with mappings was on that address or finds its own again at its octet modulo n - 1 |
| PoolRuns.SharedCanBreak | bin/entry.js:388-398 | a pool in which adding an address moves a host, and one in which deleting an address does |
| PoolRuns.RefusedRequest | bin/entry.js:235-264 | a new request is refused and changes the pool exactly when its host has maxConnection entries and a port was free, and then costs that port |
| PoolRuns.Starvation | bin/entry.js:235-264 | a host with maxConnection entries that keeps asking empties the free list of its address |
| PoolRuns.PortsAreLost | bin/entry.js:235-264 | in a pool reached from the empty one two refused requests lose its last two ports, and a host without mappings is refused |
| PoolRuns.ZeroIsOne | bin/entry.js:252-264 | with a limit of zero a host has a mapping in a pool reached from the empty one |
| Entries.Entry.constructor | bin/entry.js:6-61 | an empty pool with the given addresses added |
| Entries.Entry.AddPoolAddresses | bin/entry.js:112-168 | the addresses not yet in the pool are added in order, each with all its ports |
| Entries.Entry.DelPoolAddresses | bin/entry.js:75-110 | the addresses go, with their ports and the entries that use them |
| Entries.AddedInOrder | bin/entry.js:112-168 | new addresses stand in the pool in the order given |
| Entries.DeletedAll | bin/entry.js:75-110 | exactly the addresses given are gone, and exactly their entries |
| Entries.Entry.DelDBEntryByPoolAddr | bin/entry.js:63-73 | splicing in place leaves every host exactly its other entries, in order |
| Entries.Entry.SameEntryCheck | bin/entry.js:205-219 | the first entry of the host for that LAN endpoint |
| Entries.Entry.AssignWanIP | bin/entry.js:388-398 | the address picked by the last octet, none for an empty pool |
| Entries.Entry.AssignWanPort | bin/entry.js:400-406 | the oldest free port comes off its list |
| Entries.Entry.AssignConnection | bin/entry.js:221-276 | result and new state are those of Assign, the dropped port included |
| Entries.Entry.ReleaseWanPort | bin/entry.js:408-411 | the port goes to the end of its list, if the address is in the pool |
| Entries.Entry.ReleaseConnection | bin/entry.js:336-386 | result and new state are those of Release, the two ways to throw included |
| ProtocolReplica.ComposeOk | src/addrpool.h:662-747 | for an orderly release the sender finds the very session it is for and tags its entry with the search that found it |
| ProtocolReplica.ComposeExact | src/addrpool.h:667-696 | the release written for a held packet is its session's exactly when no other session has the packet's source as LAN endpoint; otherwise it is that other session's |
| ProtocolReplica.PublicSource | src/alias.h:718-727 | where all sessions are of private hosts, a reset packet with a public source is sound |
| ProtocolReplica.AnswerRequest | bin/pool_server:311-350 | an acknowledged mapping is the host's or has both sides free, and the server's mappings change as the reply says |
| ServerAnswers.RequestAnswered | bin/pool_server:311-350 | a TCP or UDP request is acknowledged exactly when its pool has an entry for the endpoint, or a free port at the host's address and the host under its limit; with which mapping; and the other pool stays |
| ServerAnswers.ReleaseAnswered | bin/pool_server:352-390 | a release goes to the pool of its protocol, and is unanswered exactly when that pool never saw the host |
| ServerAnswers.ForeignAnswered | bin/pool_server:415-446 | any other protocol is discarded, or acknowledged, without effect |
| ProtocolReplica.TraceStarts | src/addrpool.h:237-246 | a TCP session starts at the beginning of its trace, of which the waiting SYN is the first packet |
| ProtocolReplica.AnswerRelease | bin/pool_server:352-390 | a release of a mapping the server has is done, acknowledged, and removes exactly it |
| ProtocolReplica.NotYetReleased | bin/pool_server:352-390 | a session the server is about to release is still in the NAT's table and no release of it is on its way back |
| ProtocolReplica.ApplyOk | src/addrpool.h:387-505 | a reply applied with its entry, the packet translated a second time included, never makes the receiver exit and changes the table as the reply says |
| ProtocolFifo.FifoMatches | src/addrpool.h:652-658 | in every reachable state h_recv is the replies on the wire, the messages on the wire and the sender's own, in order, so each pop meets its cause; lines on the wire never exceed the ring |
| ProtocolReplica.TableFollowsServer | src/addrpool.h:177-427 | in every state of an orderly run no thread has given up and replaying the replies on the wire gives the mappings of tcpDB and udpDB |
| ProtocolReplica.NoCollision | src/addrpool.h:266-292 | applying any reply meets no other session: an acknowledged mapping is in the table afterwards, a released one was there and is gone |
| ProtocolFifo.SomeStep | src/addrpool.h:713-718 | a full h_recv never stops the system: while work remains some thread can step |
| ProtocolFifo.ThreadsEnd | src/addrpool.h:599-764 | however the threads are scheduled, they make at most as many steps as there is work, and each makes one unit of it less |
| ProtocolFifo.Finishes | src/addrpool.h:599-764 | from every reachable state they can go on until nothing is left to do or one of them exits |
| ProtocolReplica.Drains | src/addrpool.h:599-764 | however they are scheduled, when the work is done the rings are empty and the table is the server's |
| ProtocolLimits.ReleaseExact | src/addrpool.h:443-459 | one held packet in an idle system: its session is gone on both sides at the end exactly when it was sound, and the table is the server's exactly when it was or another final session went instead |
| ProtocolLimits.ApartUntilTimer | src/addrpool.h:403-426 | where it is not, the two differ in one session, and are in step again after the timer of that session |
| ProtocolRaces.ReleaseEverySchedule | src/addrpool.h:443-459 | the same, however the threads are scheduled |
| ProtocolPlans.RunsFrom | src/addrpool.h:599-764 | two items in an idle system end as their plan says under every schedule and whenever the second comes: which thread stops, or the table and the server at the end |
| ProtocolRaces.SecondRelease | src/addrpool.h:403-426 | a timer while the release of a reset session is under way, under every schedule: a thread uses a freed node exactly if that release was sound, the sender or the receiver as the order of pop and delete tells; otherwise when the two are in step at the end |
| ProtocolRaces.ResetAfterTimer | src/addrpool.h:667-696 | a held packet while its session's timer is under way, under every schedule: the sender uses NULL exactly if it pops the packet after the node went and no other session has one of its endpoints |
| ProtocolRaces.TimerTwice | src/addrpool.h:720-738 | two timers of one session end in the use of a freed node under every schedule |
| ProtocolRaces.HeldTwice | src/addrpool.h:443-448 | a second held packet for a session in the unknown state, under every schedule: the sender uses NULL exactly if an RST came before the first was done, is popped after, and finds no other session |
| ProtocolLimits.MisdirectedRelease | src/addrpool.h:667-696 | a run from the start after which one session is gone from the server only, with nothing left to do |
| ProtocolLimits.UnknownRelease | src/addrpool.h:443-448 | the same with a packet that puts its own session into the unknown state |
| Handlers.PacketMoves | src/alias.h:844-908 | a TCP packet looked up to a session gets the code and moves the state that the protocol's steps have; it is held back exactly where HoldBack can be taken |
| Handlers.HeldExactly | src/divert.h:216-225 | with room in h_send a packet of a session is held back exactly with code 4 and passes as traffic otherwise |
| Handlers.ArrivesExactly | src/divert.h:183-196 | a packet with code -1 joins h_send as one of its protocol and LAN endpoint |
| Handlers.ExpiresExactly | src/main.cpp:433-444 | any session may expire, and its node joins h_send |
| Handlers.NoTableWaits | src/divert.h:183-196 | a packet for which lan2wan_alias finds no session waits as one of an endpoint without a mapping; a TCP one is a SYN |
| Handlers.WaitingAsks | src/divert.h:183-196 | and a packet that waits without a mapping does get ALIAS_NO_TABLE |
| Handlers.HairpinLeaves | src/addrpool.h:276-305 | a hairpin that waited goes to the session it was addressed to, with the new mapping's WAN endpoint as source |
| Handlers.FirstPacketLeaves | src/addrpool.h:276-305 | the waiting packet, once its mapping is in the table, is let out with the mapping's WAN endpoint as source |
| Handlers.OutwardAgain | src/addrpool.h:443-448 | lan2wan_alias on the held packet changes the sessions as the protocol says and returns ALIAS_DOALIAS exactly where the protocol goes on to delete |
| Handlers.InwardAgain | src/addrpool.h:449-455 | the same for wan2lan_alias |
| Handlers.Receive | src/addrpool.h:177-505 | the receiver's calls on trees, flags and packet buffer, the translation of a waiting or held packet included, have the effect of Protocol.Apply, in network order; it exits exactly where Apply says, and what leaves is what the translation functions made of the packet |
| Handlers.Compose | src/addrpool.h:612-747 | the sender's searches give the message and the tag of Protocol.Compose |
| Threads.PoolServer.MkMessage | bin/pool_server:300-446 | the handler on the two in-place pools gives the reply and the new state of Answer |
| Threads.PoolServer.Initialize | bin/pool_server:392-413 | both pools take the addresses |
| Threads.Initialized | bin/pool_server:392-413 | after that the server is as the protocol starts from, with exactly those addresses |

## Left out

- Sockets, divert I/O, kqueue, locks, logging, options, signals and clocks: the protocol takes packets, expiring timers and malloc results as arbitrary steps, and one step of a thread at a time.
- JSON text: messages are records with endpoints in host order, and the conversions of bin/nettool.js are not modelled; htonl and htons are in ByteOrder, for a little-endian host.
- Arena: nodes are addresses into one map from address to entry instead of heap objects, so updates in place and parent links are modelled and the type of the surrounding struct is not; the two trees have a memory each, as the two RB_ENTRY fields of a node do.
- RB_INSERT_COLOR, RB_REMOVE_COLOR and RB_REMOVE are split into one method per branch, the two mirror images written out as in the macros; RB_NFIND, RB_PREV and RB_MAX are not modelled.
- RbTrees.RbTree.Remove: requires a member, as RB_REMOVE does; for an address that is not in the tree the macro's behaviour is undefined.
- ProtocolReplica.TableFollowsServer, with NoCollision and Drains: for orderly runs, since it fails for others (ProtocolLimits, ProtocolRaces); for one NAT client, reliable ordered streams and a pool that does not change after the initialize message.
- ProtocolLimits.ReleaseExact and the lemmas of ProtocolRaces: one packet or timer, or two for one session, in an otherwise idle system; what three of them, or other traffic between them, come to is not stated.
- Several NAT clients, server_end and the removal of pool addresses within the protocol; removal is modelled in Pools and Entries.
- Sending the translated packet: Handlers.Receive says which packet is sent, not what the network does with it. Protocol keeps of a waiting packet its endpoint and of a held one its endpoints, its flags and whether it passes the checks before the lookup.
- Aliases.Lan2Wan and Aliases.Wan2Lan take it as given that a packet longer than 20 bytes holds the headers it announces, as the code does (its size checks are comments), and that it is not ICMP; access times are not modelled.
- ICMP translation and its single global bucket, mk_fn_packet, the option that clears the DF flag of forwarded packets, HOSTID (off in the default build) and tcp_reset_alias.
- Checksums.Checksum: the buffer is at most 65535 bytes long, the largest an IPv4 packet can be, so the 32-bit sum cannot wrap.
- Packets.TranslateVerifies: a UDP packet without a checksum does not verify in this sense; what happens to its zero field is in Packets.NoChecksumKept.
- ring_s_pop, which locks twice and unlocks once and is not used by the NAT; the ring's size checks, which no size can fail; a ring_size beyond the range of int.
- Entries.Entry: isIPv4 is always true, addresses being 32-bit numbers; lists given as a single string are lists of one; a host that the database does not know makes releaseConnection throw, which the model returns as a result.
- countDB, the print functions, the tests and the shell scripts.
- Failing malloc, parse errors and the other paths on which a process exits, except that the protocol proves its own exit paths are not taken.
