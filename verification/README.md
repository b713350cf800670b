# Verification of mini-tun-asymmetric

A Dafny model of an asymmetric VPN: clients send up through a master, which answers
down through slaves. `dafny verify dfyconfig.toml` checks all of it.

## What is modelled

**The session lifecycle** (`Lifecycle`, `LifecycleInvariants`, `LifecycleTheorems`,
`LifecycleTraffic`, `LifecycleUplink`, `LifecycleStreams`, `LifecycleRouting`,
`LifecycleDelivery`, `LifecycleRuns`). Handshakes, the reaper with its removal hook, the
control streams to the slaves, punches, slave choices and client packets are one step system.
It is cut into steps wherever another goroutine can make a difference; a punch, a slave choice, and the look-up of a downlink packet's session
together with its slave are two accesses each in the program and one step here, because they
have the effect of some order of whole steps. Any number of handshakes, hooks and packet
reads can be under way at once, and tunnel addresses, client addresses and ports are reused
as soon as the program gives them back. The invariants say what every step keeps; the
theorems are for every state of every run.
`MasterNode`, `SessionTable` and `SlaveNode` hold the same operations as classes whose
methods are proved against the functions the steps use, or reach by running uninterrupted.

**The hello's admission** (`Replay`). The clock window with the 64-bit wrap-around of the
program, the swept nonce cache against the ledger of all acceptances for clock readings in any
order, and exactly when a hello is accepted again.

**In-tunnel DNS** (`DnsWire`, `DnsEncoding`, `DnsCache`). The four scanners as loops against
recursive specifications, these against the encoding of sections 4.1.1 to 4.1.4 of RFC 1035,
and the TTL cache over interleaved queries.

**Codecs and arithmetic** (`ControlMessages`, `Carriers`, `Framing`, `Subnet`, `Checksum`).

Assumptions, all of them about the surroundings: a session identifier is drawn only once;
the operating system hands out no port whose socket is open; a session is removed only after
its handshake finished, which a timeout of three minutes makes true of a handshake that takes
milliseconds; the slaves stay connected for the run, and control streams are FIFO; a
ciphertext opens under exactly the key that sealed it, and keys are equal only if derived
from equal inputs; firewall commands succeed.

These statements one might expect are false of the code. Each is replaced by the exact
condition, for all inputs, most with a concrete run:

- The session and the cipher found under one client address need not belong together
  (`LookupsAgreeThroughout`, `RepeatedHandshakeMixesKeys`, `CrossedHandshakesDisagree`), and a
  control packet may be opened under another session's key (`OwnKeysExactly`).
- A session in the table need not be found under its client address (`ClientIndexComplete`,
  `CrossedHandshakesDisagree`) and need not have its cipher (`CiphersCompleteThroughout`,
  `StrandedSession`).
- The pinned slave need not be able to deliver to a version 2 client (`DownlinkForwarded`,
  `RepinnedVersion2Undelivered`), and a slave sends to the source of the last punch, which need
  not be the client that shook hands (`DownlinkDelivered`, `PunchedElsewhere`).
- One hello can be accepted twice: the clock is read before the replay cache is locked, so a
  later reading can sweep first (`ReplayedExactly`, `OvertakenReadingReplays`).
- A carrier can accept another carrier's frame (`CarriersKeepApart`).
- A timestamp half the 64-bit range away passes the clock window (`WindowExact`).

## Model

| member | source | states |
|---|---|---|
| LifecycleInvariants.StepKeeps | master/main.go:549-698 | every step of a handshake, removal, hook, delivery or packet, in any state that satisfies the invariants of pool, table, ports, ciphers, packets, pins and slaves, leads to one that does |
| LifecycleInvariants.RunKeeps | master/session/session.go:81-104 | the invariants hold in every state of every interleaving |
| LifecycleStreams.SlaveAtAnyMoment | slave/main.go:438-474 | whatever is still in its queue, a slave has a session of the table at its address if and only if it was announced to it and the announcement handled; all it has was announced with these very data, and is in the table or has its end still to be sent or in the queue |
| LifecycleStreams.DrainedSlave | slave/main.go:438-474 | a slave with an empty queue has every announced session that is in the table, at its address with its key, and nothing that is not in the table or waiting for its end message to this slave |
| LifecycleStreams.QuietSlaveIsExact | master/main.go:250-257 | with no hook pending, a slave with an empty queue has exactly the live sessions announced to it, whatever addresses were reused before old end messages were sent |
| LifecycleTheorems.SlaveIdsDistinct | slave/main.go:466-473 | no two entries of a slave carry one session, so stopping at the first match when a session ends loses nothing |
| LifecycleInvariants.SlaveEnded | slave/main.go:460-474 | sending the end of a session keeps every other session's entry, also that of a new owner of the address |
| LifecycleTheorems.AddressesConserved | master/session/session.go:237-248 | the pool's first addresses are at all times the disjoint, duplicate-free union of the available and the held ones; held addresses have one holder; an empty pool means that all are held |
| LifecycleTheorems.NeverReleasedTwice | master/main.go:227 | an address put back is not in the pool already, and goes to its end |
| LifecycleTheorems.IssuedInOrder | master/session/session.go:237-248 | over a whole run the n-th address issued is the n-th of the initial list followed by all returned addresses: reissue is first in, first out |
| LifecycleTheorems.FirewallExact | master/main.go:228-236 | the dynamic firewall set is exactly the ports of sessions that opened theirs and whose hook has not deleted it |
| LifecycleTheorems.HookSparesOtherPorts | master/main.go:228-236 | deleting a session's port from the firewall never closes the port of another session |
| LifecycleTheorems.IndicesAgree | master/session/session.go:59-104 | the tables by identifier and by tunnel address hold the same sessions under their own keys; the table by client address holds no removed session |
| LifecycleTheorems.ClientIndexComplete | master/session/session.go:81-104 | every session in the table is found by its client address throughout a run if and only if no session registers with the client address of one in the table |
| LifecycleTraffic.RelayCacheExact | master/main.go:383-401 | the relay's cached key for an address always equals the derived session key, even when its deletion races with the reuse of the address |
| LifecycleTraffic.InjectedPackets | master/main.go:368-414 | every packet handed on, on any of the three uplink paths, has the tunnel address of the session looked up for it as IPv4 source; on the data and relay paths it opened under that address's session key |
| LifecycleTraffic.LookupsAgreeThroughout | master/main.go:437-446 | the session and the cipher found under one client address belong together throughout a run if and only if no handshake stores its cipher while the address still finds a session, or registers over another session's cipher |
| LifecycleTraffic.OwnKeysExactly | master/main.go:437-457 | all packets handed on, on all three paths, opened under the key of the session looked up for them if and only if no control packet was opened by a cipher stored for another tunnel address |
| LifecycleTraffic.CiphersCompleteThroughout | master/main.go:239-244 | every session in the table finds its own cipher throughout a run if and only if no handshake overwrites and no hook drops the cipher of a session in the table, and none registers without its own |
| LifecycleTraffic.SerialPackets | master/main.go:419-469 | with one listener per client address all three paths open under the session key of the session looked up, and outside of a handshake for an address the look-ups agree |
| LifecycleUplink.DataPacketExact | master/main.go:515-540 | over every run a packet on a session's own socket is handed on, once and under that session, if and only if it opens under the derived key of the session's address to an IPv4 packet of at least 20 bytes from that address |
| LifecycleUplink.ControlPacketExact | master/main.go:436-457 | a packet on a control socket, taken up at one step and finished at a later one, is handed on under the session first found if and only if there is a cipher for its address in the end and it opens under it to a packet from that session's address |
| LifecycleUplink.RelayPacketExact | master/main.go:386-414 | a relayed packet, likewise, if and only if it opens under the derived key of the address, whatever is cached; the key is cached afterwards |
| LifecycleUplink.OthersLeaveLog | master/main.go:383-469 | no other step hands anything on |
| LifecycleUplink.FilterExact | master/main.go:368-378 | the reverse-path filter passes exactly the IPv4 packets of at least 20 bytes with that source address |
| LifecycleRouting.RoutedExactly | master/main.go:136-153 | a packet for a session in the table goes to the connected slave of the last choice made for its address since its handshake began, or else the one picked for the handshake, read off the actions alone; a packet to any other address, too short or not IPv4, goes nowhere |
| LifecycleDelivery.RecordedAddress | slave/main.go:276-294 | at every point of a run the client address a slave has recorded is the source of the last punch for the tunnel address since it handled the announcement, or the announced address if there was none |
| LifecycleDelivery.DownlinkForwarded | slave/main.go:298-332 | a downlink packet routed in one state and handled by the pinned slave in a later one, whatever is still in its queue, is sealed so that it opens to the same bytes, and sent to the last punch's source or else the session's client, if and only if the handshake announced the session to that slave and the slave has handled the announcement |
| LifecycleDelivery.DownlinkDelivered | slave/main.go:298-332 | it goes to the session's own client if and only if, besides, the last punch, if any, came from there |
| LifecycleDelivery.NearestSlaveDelivers | master/main.go:475-502 | for version 3 clients the slave last chosen gets the packet and is connected, forwards it if and only if it has handled the announcement, and to the client if and only if, besides, the last punch there, if any, came from it |
| LifecycleDelivery.RecordStable | master/session/session.go:14-29 | a registered session keeps its record and its set of slaves for the rest of the run |
| LifecycleRuns.UninterruptedHandshake | master/main.go:592-664 | the steps of a handshake taken together reach a state whose tables and streams are those after `Master.HandleHandshake` |
| LifecycleRuns.UninterruptedRemoval | master/main.go:226-258 | the steps of a removal taken together, up to the last end message, reach a state whose tables and streams are those after `Master.Reap` |
| LifecycleRuns.NeverStuck | master/main.go:226-258 | in every reachable state every session that is not gone can go on with its handshake, removal or hook |
| LifecycleRuns.BeginsExactly | master/main.go:593-597 | a handshake can draw an address if and only if some address of the pool is not held |
| LifecycleRuns.FailureReturnsAddress | master/main.go:599-612 | one that fails behind the draw gives the address back, to the pool's end |
| LifecycleRuns.SlavesCanAct | master/main.go:475-502 | a live session can be pinned to every connected slave, and every slave can handle what is queued and be punched |
| LifecycleRuns.PacketsTakenExactly | master/main.go:383-450 | which client packets are taken up on each of the three paths |
| LifecycleRuns.DataGoesThrough | master/main.go:515-540 | in every reachable state a sealed client packet on a live session's data socket is taken and handed on |
| LifecycleRuns.RelayGoesThrough | master/main.go:383-414 | the same for the relay |
| LifecycleRuns.ControlGoesThrough | master/main.go:436-457 | the same on a control socket, where the address finds the session and its cipher |
| LifecycleRuns.RepinnedVersion2Undelivered | master/main.go:475-502 | a reachable state in which a version 2 session is pinned to a slave that cannot deliver to it |
| LifecycleRuns.PunchedElsewhere | slave/main.go:276-291 | a reachable state in which a live session's packets go to the source of a later punch and not to its client |
| LifecycleRuns.RepeatedHandshakeMixesKeys | master/main.go:613-642 | a reachable state, between the cipher and the registration of a client's second handshake, in which the look-ups disagree, and a packet handed on from there under the other key |
| LifecycleRuns.CrossedHandshakesDisagree | master/main.go:613-642 | a reachable state in which two interleaved handshakes of one client address, both registered, leave the look-ups naming different sessions and the client index incomplete |
| LifecycleRuns.CrossedHandshakesMixKeys | master/main.go:437-457 | from there, too, a packet is handed on that opened under the key of another session than the one looked up |
| LifecycleRuns.StrandedSession | master/main.go:239-244 | a reachable state in which a live session is found by its client address but has lost its cipher to an older session's hook |
| MasterNode.Master.OnRemove | master/main.go:226-258 | the sequential hook: address back to the pool's end, port closed, socket closed, both ciphers dropped, the end message at the end of every slave's queue |
| MasterNode.Master.Reap | master/session/session.go:89-104 | a removal with its hook, on all tables and streams; nothing for an unknown session |
| MasterNode.Master.HandleHandshake | master/main.go:549-698 | who is answered, what each failure leaves unchanged, and after a welcome all tables and streams: cipher, sockets, firewall, indices, pin, pool and announcements |
| MasterNode.Master.HandleUplink | master/main.go:383-414 | a relayed packet is handed on if and only if it opens under the derived key of its address and carries that address as source; the cache stays exact |
| SessionTable.Table.Remove | master/session/session.go:89-104 | a session leaves all three indices and goes to the hook, once |
| SessionTable.RemovedUndoesAdded | master/session/session.go:81-104 | removing what was added restores the table when no key was overwritten |
| SessionTable.IPPool.Allocate | master/session/session.go:186-201 | the oldest available address, or nothing if there is none, keeping first-in first-out order |
| SlaveNode.SlaveServer.HandleSessionEnd | slave/main.go:460-474 | the search in arbitrary order removes exactly the session's entry |
| SlaveNode.SlaveServer.HandlePunch | slave/main.go:276-294 | a punch sets the recorded client address of the entry, and changes nothing else |
| Replay.WindowExact | master/main.go:566-575 | which timestamps pass the window, for all 64-bit clock values and timestamps, wrap-around included |
| Replay.WindowSpan | master/main.go:759-762 | one timestamp passes at two clock readings only if they are at most 120 seconds apart |
| Replay.ReachesExact | master/main.go:566-580 | which hellos get to the replay cache: the right MAC and a passing timestamp |
| Replay.ReplayCache.CheckAndAdd | master/main.go:780-796 | the sweep in arbitrary order while deleting, and the verdict on the nonce |
| Replay.CacheExact | master/main.go:780-796 | after every run, whatever the order of its clock readings, the cache holds exactly the acceptances that no sweep dropped |
| Replay.VerdictExact | master/main.go:764-796 | a hello that passes window and MAC is accepted if and only if each earlier acceptance of its nonce has been swept, at the latest by its own sweep |
| Replay.ReplayedExactly | master/main.go:566-585 | an accepted hello, its nonce signed with no other timestamp, presented again inside the window has been accepted a second time, forgeries in between or not, if and only if a check in between swept with a reading more than 120 seconds past the first |
| Replay.OvertakenReadingReplays | master/main.go:566-581 | three hellos whose readings come from a clock that never goes back, the last two swapped on their way to the cache, so that one is accepted twice |
| Replay.AcceptedAtMostOnce | master/main.go:566-585 | one hello is accepted at most once unless a check between its two presentations used a later reading than the second |
| Replay.CheckRefines | master/main.go:764-796 | a nonce not accepted in the last 120 seconds is never refused, and one that was is refused by every check with the latest reading so far |
| Replay.CacheIsRecentLedger | master/main.go:764-796 | after such a check the cache is exactly the acceptances of the last 120 seconds |
| DnsWire.ParseQuestion | master/dns/resolver.go:246-280 | the scanning loop computes the specification of the first question on arbitrary bytes |
| DnsWire.EmptyAnswer | master/dns/resolver.go:288-315 | the in-place construction of the empty answer on any query of at least 12 bytes |
| DnsWire.MinTtl | master/dns/resolver.go:318-350 | terminates in bounds on arbitrary bytes and returns the least of the TTLs scanned, 0 if none |
| DnsWire.SkipNameAt | master/dns/resolver.go:354-368 | the loop over labels and compression pointers |
| DnsEncoding.ParsesQuestion | master/dns/resolver.go:246-280 | a message with an encoded first question parses to its lower-cased labels and type, whatever follows |
| DnsEncoding.ParsesAsciiQuestion | master/dns/resolver.go:270-274 | for 7-bit labels the text is, byte by byte, each label with A to Z raised by 32 and all else as it was, and a full stop behind it |
| DnsEncoding.AcceptsExactlyQuestions | master/dns/resolver.go:246-280 | a message is accepted if and only if it has a full header, a question count of at least one and an encoded question with an uncompressed name |
| DnsEncoding.LeastTtlExact | master/dns/resolver.go:318-350 | on every encoded message, names as labels, pointer or labels with pointer, the result is the least TTL of all its answers |
| DnsEncoding.ParseInvertsBuild | tools/datapathtest/main.go:198-218 | parsing inverts the query printer for every 7-bit name with labels of 1 to 63 bytes: the result is that name byte by byte, A to Z raised by 32, with a final full stop |
| DnsEncoding.NamesInjective | master/dns/resolver.go:270-274 | two names of 7-bit labels without full stops have the same text if and only if their bytes are equal but for the case of the letters A to Z |
| DnsEncoding.EmptyAnswerMatches | master/dns/resolver.go:282-315 | for every query that parses: where the empty answer ends, its counts and flags, its identifier, and that it parses to the same question |
| DnsEncoding.CacheKeyInjective | master/dns/resolver.go:370-372 | the key determines name and type even when the name contains the separator |
| DnsCache.Resolver.Query | master/dns/resolver.go:103-136 | the answer and the new cache for every query, upstream reply and pair of clock readings |
| DnsCache.CachedReplySound | master/dns/resolver.go:120-135 | over every interleaving of look-ups and upstream replies a cached reply is, but for the identifier, what upstream sent for the same name and type, no longer ago than its least TTL and an hour, and long enough to rewrite; a look-up may read the clock long after the map |
| DnsCache.AnsweredExactly | master/dns/resolver.go:103-136 | after any events every query is answered exactly so: rejected below 12 bytes, forwarded if it does not parse, the empty answer if suppressed, and else the latest answer to its name and type since the map was last emptied, under its own identifier, until the least TTL in seconds, at most 3600, has passed; the map is emptied exactly when an answer comes while it holds more than 4096 |
| DnsCache.CacheBounded | master/dns/resolver.go:405-410 | the cache never has more than 4097 entries |
| Subnet.IncrementIP | master/session/session.go:224-231 | the carry loop on byte strings of any length |
| Subnet.CarriedIsSuccessor | master/session/session.go:224-231 | it adds one modulo 256 to the length |
| Subnet.NewSubnet | master/session/session.go:255-277 | the enumeration terminates for every prefix length, wrapping past the last address included, with exactly the pool below |
| Subnet.PoolExact | master/session/session.go:250-286 | ascending, without duplicates, exactly the addresses that share the prefix, have a smaller and a larger address that do too, and are not the gateway's; or the 65536 least of these |
| Subnet.NetIsRange | master/session/session.go:279-286 | the masked comparison is membership in a range that ends at or before 2^32 |
| ControlMessages.Marshal | common/protocol/control.go:129-165 | the buffer writes produce the version 2 or version 3 layout |
| ControlMessages.ParseWelcome | common/protocol/control.go:167-198 | the parsing loop and its error cases |
| ControlMessages.WelcomeLayout | common/protocol/control.go:129-165 | the bytes of a welcome field by field, in both versions |
| ControlMessages.ParsedExact | common/protocol/control.go:167-198 | on arbitrary bytes: which are short, which have a bad version, and what is read off all others |
| ControlMessages.WelcomeRoundTrip | common/protocol/control.go:129-198 | parsing inverts marshalling in both versions, with the slaves cut to 255 |
| ControlMessages.TruncatedWelcome | common/protocol/control.go:180-196 | a version 3 welcome cut anywhere parses to the same head and exactly the complete slots, or is rejected as short |
| Carriers.UnwrapInvertsWrap | common/transport/transport.go:26-36 | for every carrier, packet type, payload and sender state |
| Carriers.CarriersKeepApart | common/transport/webrtc.go:85-96 | all twelve pairs of carriers reject each other's frames, if and only if it is not WebRTC on a µTP frame other than a handshake whose timestamp is the STUN cookie |
| Carriers.Sender.Wrap | common/transport/utp.go:66-81 | the field-by-field writes of every carrier produce a frame from which that carrier recovers packet type and payload and which the others reject but for the one case; which frames advance the sender's counter |
| Carriers.HeaderExact | common/transport/cs2.go:19-25 | which header each carrier puts in front for each packet type, and the legacy one byte by byte |
| Carriers.UtpLayout | common/transport/utp.go:66-81 | the µTP header field by field, and the cover type |
| Carriers.StunLayout | common/transport/webrtc.go:58-70 | the STUN header field by field |
| Carriers.RtpLayout | common/transport/webrtc.go:71-83 | the RTP header field by field |
| Carriers.QuicLayout | common/transport/quic.go:59-81 | the QUIC headers field by field |
| Carriers.UnwrapExact | common/transport/transport.go:31-36 | which datagrams each carrier takes, on arbitrary bytes, and what it takes out of them |
| Framing.StreamReads | slave/main.go:476-498 | any sequence of control frames with payloads below 65536 bytes reads back as itself |
| Framing.CutStreamReads | master/control/slavecontrol.go:278-292 | a stream cut anywhere yields exactly the frames complete in it |
| Framing.WholeExact | master/control/slavecontrol.go:278-292 | what complete means: the longest prefix of the frames that fits |
| Framing.FrameRoundTripExact | master/control/slavecontrol.go:33-42 | one frame reads back if and only if its payload fits the length field |
| Framing.ReadFrameExact | slave/main.go:476-498 | on arbitrary bytes: a frame and a rest are read exactly off a stream that is that frame as written and that rest |
| Framing.DatagramRoundTripExact | master/dataplane/dataplane.go:98-121 | the sealed bytes come back if and only if they leave room for the header in the receive buffer; the 16-bit end of the slice does not wrap |
| Framing.ExtractedExact | master/dataplane/dataplane.go:98-114 | on arbitrary bytes: sealed bytes are taken exactly from a datagram that begins with the type, their length and them |
| Framing.UplinkRelayed | master/dataplane/dataplane.go:136-149 | what a slave builds for a client packet the master takes apart into the same address and bytes |
| Checksum.Ipck | tools/datapathtest/main.go:282-291 | the summing and folding loops terminate with the complement of the folded sum |
| Checksum.HeaderFolds | tools/datapathtest/main.go:264-273 | with the checksum in place the ten words of every header fold to all ones, as section 3.1 of RFC 791 asks |
| Checksum.BuildUdpIp | tools/datapathtest/main.go:264-280 | every packet built has such a header with every field as given or fixed, the ports and length of the UDP header, and its payload, and passes the reverse-path filter for its source |

## Left out

- Replay.ReplayedExactly: the clock stays below 2^63 - 60 seconds; `WindowSpanAtRangeEnd` shows why.
- LifecycleDelivery.DownlinkDelivered: the datagram between master and slave is taken to arrive; the per-slave cipher on it opens what it seals.
- Sessions as shared objects: `LastSeen` is not modelled, removal is possible at any time after the handshake, and the slave a session is pinned to is a table beside the session.
- Sockets, TLS, TUN devices, the commands behind the firewall set, and the network stack, which is an environment that emits and receives packets.
- Real cryptography: hashes, HMAC, random prefixes and nonce counters; the MAC's verdict on a hello is an input.
- Slaves that connect or disconnect during a run, and the order in which the registry picks them.
- The slave's map from source addresses to sessions: the master is taken to receive any tunnel address with any bytes over the relay.
- Unicode lower-casing outside ASCII is an arbitrary function; the query printer is modelled on bytes.
- The JSON form of session announcements; the hello, slave choice and binary slave session codecs, which would add only fixed layouts.
- Upstream DNS transports, the client's probing and routing, the IPv6 pool, and everything that is user interface, configuration or metrics.
