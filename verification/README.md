# Verified model of new_proxy

`new_proxy` is a user-space stateful SNAT and QUIC tunnel. This project models its state machines and
byte transformations in Dafny 4.11 and proves their main promises for all inputs, all runs and all
interleavings. `dafny verify dfyconfig.toml` verifies the whole project.

| file | component |
|---|---|
| `Core`, `Checksum`, `Packet`, `Rewrite`, `Forward` | packet parsing, in-place translation, checksums, hop limit, MSS clamp |
| `Outer` | outer UDP packets of the tunnel and the scatter checksum |
| `Nat`, `Deadlines`, `Session` | port allocator with quarantine, deadline buckets, session table |
| `DnsWire`, `DnsFlow`, `History`, `Worker`, `Decisions`, `Runs`, `NatHistory`, `FlowWorker` | DNS messages and transactions, the flow worker, its exact decisions, its runs, port reuse over runs, and its mutable form |
| `Ports`, `Cluster` | port partition, N workers sharing the reverse-NAT directory |
| `Wakeup`, `Ring`, `Xsk`, `XskSocket` | coalesced wake-ups, AF_XDP rings and packet memory |
| `Reassembly`, `Auth`, `Dcid` | fragmentation, mutual authentication, connection-id index |
| `Lpm`, `Classifier` | the XDP program against the user-space IO worker |
| `Witnesses` | runs in which a condition of the main results fails |

Each mutable component is a class, an array algorithm or a loop whose contract ties the new state to a
function of the old one; the promises are lemmas about those functions. Concurrent parts are state
machines whose steps are single atomic or locked accesses.

## What was found false, and when exactly it holds

- Round trip: an all-ones IPv4-header, TCP or ICMP checksum comes back as zero, except for an ICMP
  message over IPv4 whose every other byte is zero; the packet comes back as it was if and only if it is
  `Canonical` (`Rewrite.RoundTrip`, failing input: `Rewrite.AllOnesIsLost`).
- Outer packets: `fill_ipv4_udp` and `fill_ipv6_udp` truncate lengths to 16 bits; a payload comes back
  if and only if it has at most 65507 or 65527 bytes (`Outer.Ipv4UdpRoundTrip`, `Outer.Ipv6UdpRoundTrip`).
- A reply is not always restored: one observed on a queue is dropped unless that is the recorded queue, or
  the recorded queue is 0 of the same interface. A reply observed on no queue goes to the recorded queue,
  which is the accepted packet's own if and only if that packet opened the session or came from the
  recorded queue; a recorded queue changes only from queue 0, to the queue of an observed reply. The
  interface is always the right one (`Runs.EndToEnd`, `Runs.QueueHistory`, failing run:
  `Witnesses.ReplyMissesSender`).
- The directory is not always the set of live bindings: a close leaves the entries of the remote DNS
  transactions it aborts, and is exact if and only if there were none (`Cluster.CloseExactIff`, failing
  run: `Witnesses.CloseLeavesStaleEntry`). Live bindings are always in the directory.
- A failed eventfd write can lose a wake-up; it is lost exactly in a stranding step
  (`Wakeup.NoLostWakeupIff`, failing run: `Wakeup.FailedWriteStrands`). The would-block branch of `notify`
  is unreachable, as the counter never exceeds one.
- An all-zero server nonce makes an honest client refuse the server: loss happens exactly in that step,
  and the exchange can be completed exactly while it has not been drawn (`Auth.LossIff`,
  `Auth.CompletableIff`, failing run: `Auth.ZeroNonceLoses`).
- A redirected frame can be passed by the IO worker, exactly in the configurations of
  `Classifier.AgreementIff` (failing frames: `Classifier.Disagreement`).
- A failed wake-up call makes `transmit_batch` report an error although the batch is queued
  (`XskSocket.Transmitter.TransmitBatch`).

## Assumptions

- Session ids and DNS tokens stay below 2^63, history sequence numbers and flow ids below 2^64, so no
  counter wraps; `Instant` is monotone where the quarantine is concerned.
- What the configuration parser rejects is excluded: an empty port range, resolvers or listener of
  different families, a listener equal to a NAT or tunnel address, a listener port other than 53, fewer
  ports than workers, 2^32 or more workers.
- The kernel honours the AF_XDP ring protocol in aligned mode: it uses only published descriptors, writes
  a frame inside one chunk it holds, and never overfills a ring.
- The MAC is a function of label and nonces, equal on both sides; the authentication stream is FIFO.
- The engine emits connection-id events only for identifiers it generated or took from a packet handed
  to it. Packets arrive in user space as classified before any policy reload.

## Model

| member | source | states |
|---|---|---|
| Checksum.ChecksumAdd | src/flow_plane/packet.rs:554-563 | The 32-bit accumulator ends at its start value plus the big-endian word sum of the slice (odd last byte high), without overflow |
| Checksum.ChecksumFinish | src/flow_plane/packet.rs:565-570 | The carry loop returns the complement of the folded sum |
| Checksum.FinishZero | src/flow_plane/packet.rs:565-570 | A computed checksum is zero exactly for a non-zero sum divisible by 65535, which is what a receiver accepts |
| Checksum.ComputedVerifies | src/flow_plane/packet.rs:542-552 | Storing the computed word, or all-ones for a computed zero, makes the whole sum acceptable |
| Checksum.AcceptedIsComputed | src/flow_plane/packet.rs:542-552 | An accepted word is the computed one, up to the two forms of one's-complement zero |
| Packet.WalkExtensionHeaders | src/flow_plane/packet.rs:630-674 | The extension-header loop equals the recursive walk of section 4 of RFC 8200 with its eight-header limit and error cases |
| Packet.WalkIff | src/flow_plane/packet.rs:630-674 | The walk ends at a header if and only if a chain of at most seven skippable extension headers leads to it |
| Packet.LayoutIff | src/flow_plane/packet.rs:388-422 | A packet has a layout if and only if it is a whole IPv4 packet with a whole header, or a whole IPv6 packet in which at most seven extension headers, each leading to the next, end at a transport header; the layout is that header's protocol, offset and end |
| Rewrite.FlowIff | src/flow_plane/packet.rs:713-779 | A packet parses to a flow if and only if it is unfragmented and its bytes spell that flow: addresses, ports (ICMP: identifier and a supported type), a UDP length that is exactly the rest and a TCP header length that fits |
| Packet.ValidateUdpLayout | src/flow_plane/packet.rs:366-386 | Success means the UDP length field equals exactly the rest of the IP packet |
| Rewrite.RewriteCorrect | src/flow_plane/packet.rs:234-266 | Rewriting fails exactly when the parse fails or protocol or family differ; otherwise same length and layout, only touched bytes differ, checksums validate, and it re-parses to the target exactly when an ICMP target is a supported echo |
| Rewrite.RewriteComposes | src/flow_plane/packet.rs:234-266 | Rewriting through any supported intermediate flow equals rewriting directly to the last one, error cases included |
| Rewrite.RefreshNormalises | src/flow_plane/packet.rs:424-463 | Rewriting a valid packet to its own flow only replaces the all-ones form of a zero checksum in IPv4 header, TCP and ICMP words |
| Rewrite.RoundTrip | src/flow_plane/packet.rs:424-548 | A valid packet rewritten to any supported compatible flow and back is the same packet if and only if no IPv4-header, TCP or ICMP checksum word is the all-ones form of a zero that covers anything else; otherwise exactly those words become zero |
| Rewrite.AllOnesIsLost | src/flow_plane/packet.rs:533-548 | A concrete valid UDP packet with an all-ones header checksum, rewritten to any IPv4 UDP flow and back, comes back different |
| Rewrite.VerifiesValidates | src/flow_plane/packet.rs:302-355 | The validator accepts a parsed layout if and only if the header sum and the transport sum verify (or UDP over IPv4 carries none) |
| Rewrite.PutChecksumVerifies | src/flow_plane/packet.rs:487-531 | A stored checksum makes the covered sum acceptable and is never zero over UDP |
| Rewrite.PutChecksumCanonical | src/flow_plane/packet.rs:533-548 | Refreshing an accepted checksum keeps it, except all-ones becomes zero when something else is covered; over UDP it is unchanged |
| Rewrite.WalkReadsOnly | src/flow_plane/packet.rs:630-674 | The extension walk depends only on bytes between its start and its end |
| Rewrite.SameLayout | src/flow_plane/packet.rs:388-422 | Packets that agree outside the touched bytes have the same layout, fragment state, UDP length and TCP data offset |
| Rewrite.PseudoAccumulate | src/flow_plane/packet.rs:487-531 | The pseudo-header loop computes the pseudo-header sum in 32 bits without overflow |
| Rewrite.StoreChecksum | src/flow_plane/packet.rs:550-570 | In place: the field is zeroed, summed without overflow and replaced as the value-level function says |
| Rewrite.PlaceFields | src/flow_plane/packet.rs:424-485 | In place: addresses and ports, or ICMP type, code and identifier, end up where the value-level function puts them |
| Rewrite.RefreshChecksums | src/flow_plane/packet.rs:424-463 | In place: header checksum first, then the transport checksum unless UDP over IPv4 carries none |
| Rewrite.RewritePacket | src/flow_plane/packet.rs:234-266 | The in-place rewrite yields exactly the specified packet and leaves the buffer alone on every error |
| Forward.PrepareCorrect | src/flow_plane/packet.rs:268-300 | A packet is forwardable exactly when it is whole, valid and its hop limit exceeds one; the result has a hop limit one lower, the same flow and layout, valid checksums and no other change but the IPv4 header checksum |
| Forward.PrepareForwardedPacket | src/flow_plane/packet.rs:268-300 | In place: the buffer ends up as specified and is untouched on every error |
| Forward.ClampBounds | src/flow_plane/packet.rs:139-184 | The option walk lowers every MSS value it reaches to the bound if it exceeds it, changes nothing else, leaves every reached option bounded and reports a change exactly when it makes one |
| Forward.ClampIdempotent | src/flow_plane/packet.rs:139-184 | An option area that is already bounded is left alone |
| Forward.ClampOptionArea | src/flow_plane/packet.rs:139-184 | The in-place option loop equals the recursive walk |
| Forward.ClampTcpMss | src/flow_plane/packet.rs:139-184 | In place: the clamp ends as specified and leaves the packet alone on error |
| Forward.ClampKeepsFlow | src/flow_plane/packet.rs:139-184 | Clamping a parsed packet never fails and keeps layout, flow, option area and hop limit |
| Forward.ParsedTcpHeader | src/flow_plane/packet.rs:124-137 | A parsed packet never fails the MSS clamp or the TCP flag parser |
| Forward.ForwardCorrect | src/flow_plane/worker.rs:319-369 | Prepare, clamp and rewrite of a forwardable packet towards a compatible supported flow always succeeds and delivers that flow with valid checksums, a hop limit one lower, every reachable MSS option lowered to at most 1333, and every other byte as it was |
| Outer.ChecksumParts | src/xdp_datapath/runtime.rs:1814-1841 | The scatter checksum over any list of slices, empty and odd ones included, is the checksum of their concatenation |
| Outer.AddPart | src/xdp_datapath/runtime.rs:1814-1841 | One slice carries the accumulator and the pending odd byte forward exactly |
| Outer.Ipv4UdpRoundTrip | src/xdp_datapath/runtime.rs:1711-1737 | An outer IPv4 packet re-parses to its endpoints, validates and returns its payload if and only if the payload has at most 65507 bytes |
| Outer.Ipv6UdpRoundTrip | src/xdp_datapath/runtime.rs:1761-1790 | The same for IPv6, if and only if the payload has at most 65527 bytes |
| Outer.FillIpv4Udp | src/xdp_datapath/runtime.rs:1711-1737 | In place over a zeroed buffer: the bytes are exactly the specified packet |
| Outer.FillIpv6Udp | src/xdp_datapath/runtime.rs:1761-1790 | In place over a zeroed buffer: the bytes are exactly the specified packet |
| Nat.AllocateCorrect | src/flow_plane/nat.rs:168-213 | Allocation keeps the invariant, picks the lowest free port whose tuple is not quarantined, and reports exhaustion exactly when every free port's tuple is quarantined |
| Nat.FreePortHasNoReverse | src/flow_plane/nat.rs:184-213 | Under the invariant a free port's tuple is never in the reverse map, so that check is redundant |
| Nat.ReleaseKeepsInv | src/flow_plane/nat.rs:229-242 | Release succeeds exactly for a live id, returns its binding, frees exactly its port and tuple, quarantines exactly that tuple for its protocol's time and keeps the invariant; an unknown id changes nothing |
| Nat.RunKeepsInv | src/flow_plane/nat.rs:168-242 | After any sequence of allocations and releases free and live ports partition the range and the reverse map is the image of the forward map |
| Nat.QuarantineSafety | src/flow_plane/nat.rs:229-263 | Over whole runs with a monotone clock, a tuple released at t is never bound again before t plus 120, 60 or 30 seconds by protocol |
| NatHistory.StepRespects | src/flow_plane/worker.rs:286-870 | No worker operation forgets a quarantine that still matters, and only a packet or a query binds a tuple, when no quarantine is left on it |
| NatHistory.QuarantineHolds | src/flow_plane/nat.rs:229-263 | Over whole worker runs with a clock that does not go back, a return tuple released by whatever operation is bound again only by a packet or query whose clock reading is at least 120, 60 or 30 seconds later by protocol |
| Nat.NatTable.NewDual | src/flow_plane/nat.rs:141-157 | The table starts with exactly the inclusive range free and rejects an empty range |
| Nat.NatTable.FindPort | src/flow_plane/nat.rs:184-200 | The ascending search returns the least usable port, or nothing exactly when there is none |
| Nat.NatTable.AllocateAt | src/flow_plane/nat.rs:168-213 | In place: the table takes exactly the specified step |
| Nat.NatTable.RemoveAt | src/flow_plane/nat.rs:229-242 | In place: the table takes exactly the specified step |
| Nat.ReverseNatDirectory.PublishBinding | src/flow_plane/nat.rs:57-71 | In place: insert, accept an equal entry, or refuse a different one |
| Nat.ReverseNatDirectory.RetireBinding | src/flow_plane/nat.rs:79-89 | In place: removal only if the entry equals the expected locator |
| Deadlines.InsertIndexes | src/flow_plane/session.rs:317-322 | Inserting a key keeps the buckets the exact index of deadlines, with no empty bucket |
| Deadlines.DeleteIndexes | src/flow_plane/session.rs:476-488 | Deleting a key keeps the exact index and drops an emptied bucket |
| Deadlines.LaterIndexes | src/flow_plane/session.rs:325-355 | Popping all buckets up to now leaves exactly what is still to come |
| Deadlines.DrainDue | src/flow_plane/session.rs:325-355 | The pop loop collects exactly the keys due by now |
| Session.TouchKeepsInv | src/flow_plane/session.rs:251-323 | Touching keeps all indexes in agreement, fails only for a foreign caller or unknown id, and changes only TCP state and deadline |
| Session.TcpHistory | src/flow_plane/session.rs:251-323 | The TCP state of a session is exactly what it has seen since opening: reset after any RST, closing after a FIN in both directions, half closed after one, in whatever order |
| Session.GetOrCreateKeepsInv | src/flow_plane/session.rs:134-203 | A known key is touched, a new key gets the next id and a binding of its flow, a failure leaves sessions and bindings alone, and every index still agrees |
| Session.RemoveKeepsInv | src/flow_plane/session.rs:380-399 | Removal succeeds exactly for the owner and a live id and removes it from every index |
| Session.ExpireIdleCorrect | src/flow_plane/session.rs:325-355 | Expiry removes and returns exactly the sessions whose deadline has passed, in any order of the buckets, and never fails for the owner |
| Session.CorrectKeepsInv | src/flow_plane/session.rs:209-228 | Queue correction keeps keys, bindings and all indexes |
| Session.RebindKeepsInv | src/flow_plane/session.rs:401-416 | Rebinding moves exactly the sessions of the old flow to the new one, returns their number and leaves every index alone |
| Session.AllocateEphemeralKeepsInv | src/flow_plane/session.rs:357-369 | A token binding never disturbs a session and keeps the invariant |
| Session.ReleaseEphemeralKeepsInv | src/flow_plane/session.rs:371-378 | Releasing a token keeps the invariant |
| Session.LookupFindsOwner | src/flow_plane/session.rs:235-240 | A reply resolves to a session exactly when its tuple's binding is a session's, never for a token's |
| Session.SessionTable.TouchSession | src/flow_plane/session.rs:251-323 | In place: the table takes exactly the specified step and returns its result |
| Session.SessionTable.GetOrCreateWithFlagsAt | src/flow_plane/session.rs:134-203 | In place: the table takes exactly the specified step and returns its result |
| Session.SessionTable.RemoveSession | src/flow_plane/session.rs:380-399 | In place: the table takes exactly the specified step and returns its result |
| Session.SessionTable.ExpireIdleSessions | src/flow_plane/session.rs:325-355 | In place: the table takes exactly the specified step and returns its result |
| Session.SessionTable.CorrectIo | src/flow_plane/session.rs:209-228 | In place: the table takes exactly the specified step and returns its result |
| Session.SessionTable.Rebind | src/flow_plane/session.rs:401-416 | In place: the table takes exactly the specified step and returns its result |
| Session.SessionTable.AllocateEphemeralNat | src/flow_plane/session.rs:357-369 | In place: the table takes exactly the specified step and returns its result |
| Session.SessionTable.ReleaseEphemeralNat | src/flow_plane/session.rs:371-378 | In place: the table takes exactly the specified step and returns its result |
| Session.SessionTable.RemoveEach | src/flow_plane/session.rs:341-355 | The removal loop enumerates the drained ids once each and takes the specified steps |
| DnsWire.NameEndsAgree | src/flow_plane/dns.rs:376-462 | Whenever `parse_name` and `skip_name` both succeed at an offset they return the same end (section 4.1.4 of RFC 1035) |
| DnsWire.ValidatedIsTiled | src/flow_plane/dns.rs:319-346 | A message validates if and only if it has the wanted direction and a standard opcode, its one question parses and its records tile the rest to the last byte; the question reported is the one the record walk steps over |
| DnsWire.RulesMatchIsAnyDomainMatch | src/flow_plane/dns.rs:190-195 | The suffix-set lookup matches a name exactly when some rule matches it label-wise |
| DnsWire.ClampEdnsCorrect | src/flow_plane/dns.rs:257-301 | A successful clamp changes only OPT class bytes, leaves every OPT class at most 1232, and a second pass changes and reports nothing, even with compression pointers (section 6.1.2 of RFC 6891) |
| DnsWire.SkipNameLoop | src/flow_plane/dns.rs:376-397 | The loop equals the recursive skip |
| DnsWire.ParseNameLoop | src/flow_plane/dns.rs:420-462 | The loop equals the recursive parse with its hop limit and cycle check |
| DnsWire.ClampAdditional | src/flow_plane/dns.rs:275-297 | In place: the additional-record loop equals the recursive walk |
| DnsWire.ClampEdnsUdpPayload | src/flow_plane/dns.rs:257-301 | In place: the payload and the result are exactly as specified |
| DnsFlow.EnsuredPayload | src/flow_plane/packet.rs:191-232 | Padding keeps the payload, extends it with zeros to the minimum and repairs both length fields |
| DnsFlow.RewriteKeepsPayload | src/flow_plane/packet.rs:234-266 | Rewriting a UDP packet keeps its payload |
| DnsFlow.EdnsClampKeepsFlow | src/flow_plane/worker.rs:1000-1012 | Clamping a query packet keeps its flow, never fails on a parsed UDP packet and replaces the payload by its clamped form exactly when the clamp succeeds and changes it |
| DnsFlow.ServfailCorrect | src/flow_plane/worker.rs:1023-1054 | A SERVFAIL for a parsed UDP query of any length can always be built; it goes from the listener to the client's own port, validates, and is the query with the response bit, code 2 and no records |
| DnsFlow.PlanCorrect | src/flow_plane/worker.rs:502-546 | A planned query goes to the listener and carries the client's payload with clamped EDNS sizes; it is admitted exactly when it is small enough and its question parses, keyed by its client, and goes to the remote resolver exactly when it is a valid query for a name some remote rule covers |
| History.RecordKeeps | src/flow_plane/worker.rs:977-991 | Recording a tuple makes it the newest entry, once, keeps every other entry at its place and the two maps inverse |
| History.ForgetKeeps | src/flow_plane/worker.rs:993-997 | Forgetting a tuple keeps the two history maps inverse |
| History.Evict | src/flow_plane/worker.rs:977-991 | The eviction loop terminates and leaves at most 65536 entries, the newest ones |
| History.Remember | src/flow_plane/worker.rs:977-991 | The remembered tuple survives eviction and nothing but known tuples is left |
| Worker.InterceptCorrect | src/flow_plane/worker.rs:319-369 | Accepting a packet keeps the worker invariant; a failure leaves sessions and bindings alone; success opens or touches the session of its flow and interface and delivers the packet translated, every other byte as it was |
| Worker.ReverseForCorrect | src/flow_plane/worker.rs:447-491 | A return packet fails exactly when it is not forwardable or does not parse, and is restored exactly when it replies to the named live session of this worker and its queue lets it through; then it goes to the settled queue, and otherwise nothing changes |
| Worker.ReplyReachesOwner | src/flow_plane/worker.rs:447-491 | A forwardable reply on a live session's tuple, wherever it is observed, is restored if and only if it was observed on no queue, on the recorded queue, or on the session's interface while the recorded queue is 0; it goes to the recorded queue or the one it was observed on; a dropped one changes nothing |
| Worker.DnsQueryCorrect | src/flow_plane/worker.rs:502-635 | A query creates a binding exactly when a new transaction is forwarded; it is forwarded, payload unchanged, with the transaction's translated flow, or answered to the client with SERVFAIL for its own query, or fails and changes no binding |
| Worker.DnsResponseCorrect | src/flow_plane/worker.rs:637-709 | A response ends exactly the live transaction whose tuple it arrives on and whose question it repeats; the client's own port gets the response's payload from the listener, or SERVFAIL for its query if that payload is oversized; otherwise nothing changes |
| Worker.RemoveTransactionKeeps | src/flow_plane/worker.rs:938-957 | Ending a transaction never fails and removes exactly it and its binding from every table |
| Worker.EndAllCorrect | src/flow_plane/worker.rs:716-787 | Ending distinct live transactions never fails, removes exactly them and sends each client, at its own port, one SERVFAIL for its own query |
| Worker.ExpireDnsCorrect | src/flow_plane/worker.rs:711-750 | Expiry ends exactly the transactions whose deadline has passed and sends each client SERVFAIL for its query |
| Worker.BindingsPartition | src/flow_plane/worker.rs:932-957 | NAT bindings are the disjoint union of live session ids and live DNS tokens |
| Worker.DnsAnswerIsNoSession | src/flow_plane/session.rs:235-240 | A live DNS answer tuple is never resolved as a session |
| Worker.TokensDistinct | src/flow_plane/worker.rs:932-936 | Distinct transactions hold distinct tokens |
| Decisions.AcceptedIff | src/flow_plane/worker.rs:319-369 | A packet is accepted if and only if its QUIC flow is this worker's, it is forwardable and parses, and its session is known or a port is left for it |
| Decisions.GetOrCreateIff | src/flow_plane/session.rs:134-203 | A session is found or created if and only if its key is known or some free port is out of quarantine |
| Decisions.RefusalAnswers | src/flow_plane/worker.rs:1014-1058 | Every UDP query of the listener's family can be answered with a valid SERVFAIL for it from the listener to its client, however short its payload |
| Decisions.PlannedIff | src/flow_plane/worker.rs:502-546 | A packet is taken as a query exactly when it is forwardable, parses and goes to the listener over UDP |
| Decisions.QueryDecided | src/flow_plane/worker.rs:502-635 | Which query is forwarded, answered or failed: exactly by live transaction, resolver availability, capacity, NAT family and ports left; every SERVFAIL is for the query and goes to the client |
| Runs.StepKeeps | src/flow_plane/worker.rs:286-870 | Each of the ten worker operations keeps the invariant and evolves sessions and transactions |
| Runs.RunInvariant | src/flow_plane/worker.rs:286-870 | The worker invariant holds in every state of every run |
| Runs.RunEvolves | src/flow_plane/worker.rs:286-870 | Across a run a surviving session keeps flow, binding and interface, a surviving transaction is unchanged, and new ones have unused identifiers |
| Runs.QueueHistory | src/flow_plane/session.rs:209-228 | Across a run a session's recorded queue changes only from queue 0, to the queue on which some reply to it was observed |
| Runs.EndToEnd | src/flow_plane/worker.rs:319-491 | After a packet of flow f is accepted, in every later state with its session live, every forwardable reply on the translated tuple, wherever it is observed, is restored if and only if its queue lets it through: to f reversed (ICMP: original id, reply type kept), valid, hop limit one lower, MSS bounded, every other byte as it was, on f's interface, on the queue it was observed on or else the recorded one; without a correction that is the accepted packet's queue if and only if it opened the session or came from the recorded queue |
| Runs.EndedStaysEnded | src/flow_plane/worker.rs:938-957 | A token that has ended is never live again |
| Runs.EndsOnce | src/flow_plane/worker.rs:637-787 | Each transaction ends at most once: two steps of a run never end the same token |
| Runs.SessionsEndOnce | src/flow_plane/session.rs:380-399 | A session id that has ended is never live again |
| Runs.AbortCorrect | src/flow_plane/worker.rs:752-766 | Aborting by binding ends the transaction if it was live and sends its client SERVFAIL for its query, and changes nothing otherwise |
| Runs.AbortRemoteCorrect | src/flow_plane/worker.rs:768-787 | Aborting remote transactions ends exactly those and sends each client SERVFAIL for its query |
| Runs.RunPartition | src/flow_plane/nat.rs:168-242 | In every state of every run free and live ports partition the range, the reverse map is the image of the forward map, bindings are exactly sessions and tokens, and no live DNS tuple resolves as a session |
| Runs.RunIndexes | src/flow_plane/session.rs:134-416 | In every state of every run all redundant session and DNS indexes agree, and live and completed tuples are disjoint |
| Witnesses.ReplyMissesSender | src/flow_plane/worker.rs:447-491 | A run of two packets of one session from two queues, after which a reply observed on no queue goes to the first one's queue and a reply observed on the second one's queue is dropped |
| FlowWorker.FlowWorkerState.HandleIntercept | src/flow_plane/worker.rs:319-369 | In place: the worker takes exactly the specified step and returns its result |
| FlowWorker.FlowWorkerState.HandleReverseFor | src/flow_plane/worker.rs:447-491 | In place: the worker takes exactly the specified step and returns its result |
| FlowWorker.FlowWorkerState.HandleDnsQuery | src/flow_plane/worker.rs:502-635 | In place: the worker takes exactly the specified step and returns its result |
| FlowWorker.FlowWorkerState.RemoveDnsTransaction | src/flow_plane/worker.rs:938-957 | In place: the worker takes exactly the specified step and returns its result |
| FlowWorker.FlowWorkerState.HandleDnsResponse | src/flow_plane/worker.rs:637-709 | In place: the worker takes exactly the specified step and returns its result |
| FlowWorker.FlowWorkerState.EndEach | src/flow_plane/worker.rs:716-787 | The shared removal loop ends each key once, in some order, as the specified steps |
| FlowWorker.FlowWorkerState.ExpireDnsTransactions | src/flow_plane/worker.rs:711-750 | In place: the worker takes exactly the specified step and returns its result |
| FlowWorker.FlowWorkerState.AbortRemoteDnsTransactions | src/flow_plane/worker.rs:768-787 | In place: the worker takes exactly the specified step and returns its result |
| FlowWorker.FlowWorkerState.AbortDnsTransaction | src/flow_plane/worker.rs:752-766 | In place: the worker takes exactly the specified step and returns its result |
| Ports.SlicesPartition | src/xdp_datapath/runtime.rs:153-172 | The slices of N workers are disjoint, cover the configured range exactly and differ in size by at most one |
| Ports.SliceExists | src/xdp_datapath/runtime.rs:153-172 | A worker has a slice exactly when there is a port for every worker |
| Cluster.SystemStepKeeps | src/xdp_datapath/runtime.rs:908-1315 | Every step of every worker keeps the system invariant |
| Cluster.SystemRun | src/xdp_datapath/runtime.rs:868-1315 | The system invariant holds over every interleaving of N workers from start-up |
| Cluster.NeverAnothersEntry | src/flow_plane/nat.rs:57-71 | Whatever entry a publication meets belongs to the publishing worker itself |
| Cluster.DirectoryOwnership | src/xdp_datapath/runtime.rs:1371-1414 | In every interleaving each entry names the worker owning its NAT port, and no publication collides with another worker's entry |
| Cluster.BoundaryLookup | src/xdp_datapath/runtime.rs:908-1485 | At a worker's message boundary every reply to a live binding looks up to that binding's own locator |
| Cluster.ReplyRouted | src/xdp_datapath/runtime.rs:993-1020 | At a message boundary a forwardable reply to a live session looks up to its worker, which restores it if and only if its queue lets it through, to the queue it was observed on or else the recorded one |
| Cluster.StepExact | src/xdp_datapath/runtime.rs:908-1485 | Unless a close hits live remote transactions, a step keeps the directory equal to the live bindings and pending retirements |
| Cluster.CloseExactIff | src/xdp_datapath/runtime.rs:1283-1294 | A close keeps the directory exact if and only if no remote DNS transaction was live |
| Witnesses.CloseLeavesStaleEntry | src/xdp_datapath/runtime.rs:1283-1294 | A run from start-up in which a remote query is forwarded, published and then hit by a close: the directory is exact before the close and not after it |
| Cluster.ExactRun | src/xdp_datapath/runtime.rs:1371-1485 | In a run without such a close the directory is exact throughout and no publication is ever refused |
| Wakeup.StepKeepsSource | src/xdp_datapath/io_wakeup.rs:28-81 | Every step keeps: pending is set exactly when one of writer in progress, eventfd readable, loop between drain and clear holds, and never two |
| Wakeup.RunSource | src/xdp_datapath/io_wakeup.rs:28-81 | That holds in every reachable state with any number of producers |
| Wakeup.StepSafeIff | src/xdp_datapath/runtime.rs:1488-1591 | A step keeps wake-ups safe if and only if it is not the reset after a failed write by the last notifying producer while the loop polls with a request queued |
| Wakeup.NoLostWakeupIff | src/xdp_datapath/runtime.rs:1488-1591 | No wake-up is lost in a run if and only if no step of it is such a stranding step |
| Wakeup.NoLostWakeup | src/xdp_datapath/io_wakeup.rs:28-51 | While every eventfd write succeeds, a request queued with the loop at poll means the eventfd is readable or a producer is still notifying |
| Wakeup.FailedWriteStrands | src/xdp_datapath/io_wakeup.rs:36-50 | A run with exactly one failed write and no stop ends with the loop at poll, one request queued, the eventfd not readable, pending clear and nobody notifying |
| Wakeup.WakesLoop | src/xdp_datapath/runtime.rs:1556-1591 | With every producer finished a queued request wakes the loop, which receives with the request still queued |
| Ring.Push | src/xdp_datapath/xsk.rs:451-460 | With wrapping 32-bit counters, a write at the producer slot of a ring that is not full appends to its contents |
| Ring.Drop | src/xdp_datapath/xsk.rs:339-369 | Advancing the wrapping consumer drops exactly the front of the contents |
| Xsk.PushFillFits | src/xdp_datapath/xsk.rs:451-460 | The unchecked push of a received chunk never overwrites an unconsumed fill slot |
| Xsk.FreeFitsRing | src/xdp_datapath/xsk.rs:28-33 | The free list never exceeds the room in the transmit ring, so the descriptor bound of the batch size is redundant |
| Xsk.StepKeeps | src/xdp_datapath/xsk.rs:339-481 | Every memory access of the user side and every step of a kernel that honours the rings keeps the whole invariant |
| Xsk.RunInv | src/xdp_datapath/xsk.rs:311-481 | The invariant holds in every state of every interleaving from start-up |
| Xsk.OnePlace | src/xdp_datapath/xsk.rs:339-481 | Each of the 2048 chunks is in exactly one of fill ring, kernel, receive ring, free list, transmit ring, in flight, completion ring |
| Xsk.PendingDisjoint | src/xdp_datapath/xsk.rs:371-439 | Two frames pending transmission never share a byte, nor one with a receive chunk |
| Xsk.HandlerSeesFrame | src/xdp_datapath/xsk.rs:339-369 | The frame handler sees exactly the oldest delivered frame, inside the packet memory |
| Xsk.KernelSeesFrame | src/xdp_datapath/xsk.rs:371-439 | The kernel transmits exactly the oldest queued frame |
| Xsk.FramesConserved | src/xdp_datapath/xsk.rs:339-481 | Over any run frames are neither lost, repeated, reordered nor altered in either direction |
| Xsk.InFlightUnaltered | src/xdp_datapath/xsk.rs:371-481 | From the moment the kernel takes a descriptor until its completion, the memory behind it shows the transmitted frame, whatever either side does in between |
| XskSocket.Receiver.SeedFillRing | src/xdp_datapath/xsk.rs:441-449 | Seeding puts every receive chunk into the fill ring in order |
| XskSocket.Receiver.ReceiveWith | src/xdp_datapath/xsk.rs:339-369 | The loop hands over the oldest frames within the budget, in order, and returns their chunks to the fill ring |
| XskSocket.Transmitter.ReclaimCompletions | src/xdp_datapath/xsk.rs:462-481 | The loop moves every completed chunk to the free list |
| XskSocket.Transmitter.TransmitBatch | src/xdp_datapath/xsk.rs:371-439 | Queues as many frames as there are free chunks, in order and unaltered; fails exactly for an oversized frame among them, with nothing queued, or for a failed wake-up call, with the batch queued |
| Reassembly.EncodeDecodes | src/quic_engine.rs:586-612 | The receiver reads back the packet id, total length, offset and data of an encoded fragment |
| Reassembly.FragmentsTile | src/quic_engine.rs:571-597 | Every fragment fits the datagram limit, and the pieces tile the packet: each position is in exactly one piece with the right byte |
| Reassembly.ArbitraryInput | src/quic_engine.rs:599-678 | For any sequence of datagrams, prunes and clears: byte count is the sum over entries and at most 1 MiB, at most 4096 entries, each incomplete with its count equal to its set bits |
| Reassembly.HandleFragmentKeeps | src/quic_engine.rs:599-661 | One arbitrary fragment keeps those limits |
| Reassembly.PruneKeeps | src/quic_engine.rs:664-673 | Pruning keeps those limits |
| Reassembly.DeliverPiece | src/quic_engine.rs:599-661 | A missing piece is recorded, and the last one yields exactly the packet and clears its entry |
| Reassembly.ReassemblyIsIdentity | src/quic_engine.rs:571-678 | Every piece delivered once, in any order and amid any traffic of other packets, with room and in time, yields exactly one inner packet equal to the one sent, at the last piece |
| Reassembly.ShortPacket | src/quic_engine.rs:361-384 | A packet below the limit travels in one datagram and comes out as it went in |
| Reassembly.Engine.SendFragmented | src/quic_engine.rs:571-597 | The loop sends exactly the specified fragments and advances the id; fails exactly for a packet over 65535 bytes or a limit without room |
| Reassembly.Engine.HandleInnerFragment | src/quic_engine.rs:599-661 | In place: the table and the emitted packets are exactly as specified |
| Reassembly.Engine.PruneReassembly | src/quic_engine.rs:664-673 | In place: exactly the young entries stay and the counter is their total |
| Auth.FlushMoves | src/quic_engine.rs:1202-1228 | A flush moves a prefix of the unsent bytes, never fails on an open stream and is complete exactly when nothing is left |
| Auth.FlushAuthStream | src/quic_engine.rs:1202-1228 | The loop equals the specified flush for any number of accepted bytes |
| Auth.PhaseStep | src/quic_engine.rs:938-1228 | Every step stays in a phase of the exchange, moves to the next, or is the one refusal |
| Auth.Agreement | src/quic_engine.rs:938-1228 | Under every schedule of partial reads and writes: the server never flags loss, the client only after an all-zero server nonce, at most one frame is outstanding per direction, and an authenticated client implies an authenticated server with the same nonces |
| Auth.LossIff | src/quic_engine.rs:1050-1174 | A step leads to loss if and only if the client completes a response whose server nonce is all zero |
| Auth.ZeroNonceLoses | src/quic_engine.rs:1050-1174 | For every MAC and client nonce a run between two honest sides draws the all-zero server nonce and ends in loss |
| Auth.Progress | src/quic_engine.rs:899-1228 | In each unfinished phase some byte can be moved (or the client can start), and doing so lowers the work left |
| Auth.Completes | src/quic_engine.rs:899-1228 | From each phase some schedule ends with both sides authenticated on the same nonces |
| Auth.RunProgress | src/quic_engine.rs:899-1228 | In every state of every run without an all-zero server nonce some enabled step lowers the work left, until both sides are authenticated |
| Auth.CompletableIff | src/quic_engine.rs:899-1228 | In every state of every run the exchange can still be completed if and only if the server has not drawn the all-zero nonce |
| Dcid.BootstrapOwner | src/flow_plane/quic_flow.rs:63-71 | The hash owner exists exactly for a non-empty identifier and a positive worker count, and is a worker |
| Dcid.StageKeeps | src/flow_plane/quic_flow.rs:89-110 | Staging keeps the index consistent and changes at most the one identifier |
| Dcid.PublishKeeps | src/flow_plane/quic_flow.rs:161-185 | Publishing keeps the index consistent, activates the identifier and changes no other |
| Dcid.BatchAllOrNothing | src/flow_plane/quic_flow.rs:122-159 | A batch succeeds exactly when no identifier is empty or somebody else's, and then activates all of them; otherwise nothing changes |
| Dcid.RetireKeeps | src/flow_plane/quic_flow.rs:194-206 | Retiring removes exactly one identifier and keeps `by_flow` the inverse of `by_dcid` |
| Dcid.CloseFlowKeeps | src/flow_plane/quic_flow.rs:219-232 | After closing a flow nothing resolves to it and every other identifier resolves as before |
| Dcid.ReadingsAgree | src/xdp_datapath/io_worker.rs:500-525 | Whenever the IO worker reads an identifier from a packet the engine reads the same one, and it is not empty |
| Dcid.NeverConflicts | src/xdp_datapath/runtime.rs:1236-1282 | No stage, publish or batch of any worker is ever refused |
| Dcid.StepKeeps | src/xdp_datapath/runtime.rs:1236-1305 | Generation, dispatch, acceptance, index events and reconnects keep ownership by hash, the inverse and the congruence of flow ids |
| Dcid.WorkersNeverConflict | src/quic_engine.rs:1332-1347 | Over every interleaving an indexed identifier's worker is its bootstrap hash owner, no flow id of one worker at any time is one of another worker at any time, and no index operation is refused |
| Dcid.FlowsGrow | src/xdp_datapath/runtime.rs:1295-1305 | A worker's flow id never decreases and strictly grows with each close, so no id is used twice |
| Dcid.ActiveDcidIndex.StageForFlow | src/flow_plane/quic_flow.rs:89-110 | In place: the index takes exactly the specified step and returns its result |
| Dcid.ActiveDcidIndex.PublishForFlow | src/flow_plane/quic_flow.rs:161-185 | In place: the index takes exactly the specified step and returns its result |
| Dcid.ActiveDcidIndex.PublishBatchForFlow | src/flow_plane/quic_flow.rs:122-159 | In place: the index takes exactly the specified step and returns its result |
| Dcid.ActiveDcidIndex.RetireDcid | src/flow_plane/quic_flow.rs:194-206 | In place: the index takes exactly the specified step and returns its result |
| Dcid.ActiveDcidIndex.RetireForFlow | src/flow_plane/quic_flow.rs:208-217 | In place: the index takes exactly the specified step and returns its result |
| Dcid.ActiveDcidIndex.Close | src/flow_plane/quic_flow.rs:219-232 | In place: the index takes exactly the specified step and returns its result |
| Lpm.LookupIsAnyMatch | src/xdp_datapath/runtime.rs:2198-2271 | Longest-prefix match over prefixes of one action is any-match, with NAT hosts and then forced-local hosts laid over it |
| Lpm.Configure | src/xdp_datapath/runtime.rs:2198-2271 | The three update loops leave exactly the specified table |
| Classifier.PublicAgrees | src/xdp_datapath/xdp_filter.c:273-363 | The kernel's and the IO worker's public-address predicates are equal for every IPv4 and IPv6 address |
| Classifier.WalksAgree | src/xdp_datapath/xdp_filter.c:419-472 | The two extension-header walks both fail or end at the same header, and a fragment to the kernel is one to the IO worker |
| Classifier.KernelWalkLoop | src/xdp_datapath/xdp_filter.c:419-472 | The kernel loop equals the recursive walk |
| Classifier.UserWalkLoop | src/xdp_datapath/io_worker.rs:411-457 | The IO worker loop equals the recursive walk |
| Classifier.HeadersAgree | src/xdp_datapath/io_worker.rs:348-409 | Both classifiers accept the same headers and read the same fields |
| Classifier.PolicyAgrees | src/xdp_datapath/xdp_filter.c:365-417 | A packet the policy tables redirect is one the IO worker's policy allows or its NAT check drops |
| Classifier.PassedIff | src/xdp_datapath/xdp_filter.c:475-640 | The IO worker passes a redirected frame exactly when it is a resolver's answer to a NAT address that is the tunnel's own, on another port |
| Classifier.Agreement | src/xdp_datapath/io_worker.rs:82-228 | Outside overlapping configurations every redirected frame is dispatched or dropped |
| Classifier.Disagreement | src/xdp_datapath/io_worker.rs:82-228 | In every overlapping configuration a concrete frame is redirected and then passed |
| Classifier.AgreementIff | src/xdp_datapath/xdp_filter.c:475-640 | The classifiers agree on every frame if and only if the configuration does not overlap |

## Left out

- `quinn_proto`, rustls, HMAC and SHA-256 internals, and the driving of candidate and active connections.
- Loading and attaching of BPF programs, interface discovery, statistics, counters, signals, JSON output.
- Configuration parsing; its checks are the assumptions above.
- `DnsTransactionTable` in `src/flow_plane/dns.rs`, which the runtime does not use.
- `remove_by_quic_flow`, `remove_dns_transactions` and `retire_quic_flow_state`: not reached by the runtime.
- `port_reservation.rs`, `io_registry.rs`, the bounded channels' own counters, Ethernet framing of transmits.
- Memory ordering, volatile access and the real time-outs of `poll`: steps are atomic.
- Policy reload, which does not reach the IO workers.
- The choice of worker for a new flow or query by hash; a full or closed worker queue counts as dropped.
- The tunnel queue derived from a flow's seed, and the random draw loop of connection ids, whose
  termination is a matter of probability.
- FlowWorker.FlowWorkerState.HandleDnsQuery: the packet edits of the DNS operations go through the value-level functions that the in-place methods are proved equal to, not through one shared buffer.
- XskSocket.Receiver.ReceiveWith: states one call without kernel steps in between; interleaved kernel steps are covered by Xsk.StepKeeps on values.
- XskSocket.Transmitter.TransmitBatch: states one call without kernel steps in between; interleaved kernel steps are covered by Xsk.StepKeeps on values.
- Outer.FillIpv4Udp: asks for at most 131000 bytes, as beyond that the 32-bit sum can overflow, which stops or wraps depending on how the program is built; every caller's packet fits a 4096-byte chunk.
- Outer.FillIpv6Udp: asks for at most 131000 bytes for the same reason.
- Cluster.SystemRun: allows a session to be dropped at any message boundary, which is more than the runtime does.
- Reassembly.ReassemblyIsIdentity: takes every datagram as accepted by the transport; a refused one ends the send with an error.
