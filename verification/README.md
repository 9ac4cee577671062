# Hadock, verified

Hadock is a broker for high-rate data: it receives HRDL packets in its own TCP protocol, archives
them and tells clients about them. This project models its protocol code in Dafny and proves what
the code is for. Paths below are relative to the root of the repository.

Everything is stated for all inputs: any bytes, any packets, any interleaving of threads, any
behaviour of the network, any way a file is read. Where the program falls short of what its
callers would expect, there is a lemma that says exactly when it meets it.

| file | contents |
|---|---|
| `Bytes.dfy`, `Sorting.dfy` | fixed-width integers and their encodings; `sort.Slice` and `sort.Search` |
| `Proto.dfy`, `Decoder.dfy` | the stream decoder of `proto.go`: as functions on byte strings ending in EOF, and as the program runs it, over a consumed reader |
| `Streams.dfy`, `Truncation.dfy` | what the decoder does with frames, fragments, noise, arbitrary bytes, and streams that are cut off |
| `Checksum.dfy` | the plug-in's alignment-aware Internet checksum against RFC 1071, sections 1, 2 and 4.1 |
| `Plugin.dfy`, `Replay.dfy` | the two other encoders: the C++ plug-in's and the replayer's |
| `Instances.dfy` | the list of accepted instances, sorted in place by every connection at once |
| `Forward.dfy`, `ForwardRuns.dfy`, `ForwardPhases.dfy`, `Client.dfy`, `EndToEnd.dfy` | producers, bounded queue and sender thread as a transition system; its invariants; reconnecting and stopping; the code between two interference points; from packets produced to packets decoded |
| `Records.dfy`, `FileReplay.dfy` | HRDP records, their checksum and their scanner; from record files through the replayer to the decoder |
| `Messages.dfy`, `Pool.dfy` | the monitoring messages, the filter in front of a notifier, and the aggregating pool |
| `WebMonitor.dfy` | the web monitor's rings, shared by any number of feeds |
| `Archive.dfy` | the store in which good copies replace bad ones |

## What is proved

**Wire protocol.** The decoder recovers exactly the accepted packets, in order, from every stream
of frames, complete fragment groups and 4-byte noise; it never emits more than it was given; a
stream cut anywhere yields a prefix. Its resynchronisation never changes the alignment: a stream
without the preamble at a multiple of 4 yields nothing. Consumed protocol-0 bytes are the
canonical frame of the packet returned. The three encoders write the same frames.

**Instances.** Every connection sorts the shared list of accepted instances in place. A list that
is ascending is never changed, so every connection filters by membership; so they do once one sort
has finished undisturbed. Two connections that start together on the list 2, 3, 1 can lose the
packets of instance 1.

**Fragmentation.** The replayer announces `len/size` as the last number, so a packet arrives if
and only if the size does not divide its length and `len/size` is at most 65535. The same
condition, for every packet of a run, decides whether a whole replay arrives. Nothing at all
arrives if and only if the size divides every packet and `len/size` is at most 65535 for each.
Whatever faults the network has, all packets written before the first of them are delivered first
and unspoiled; a frame that is cut after its header then takes its missing bytes from what
follows.

**Checksum.** The 64-bit accumulation over 32-bit blocks from any start address computes the RFC
1071 checksum, except that it never gives 0xffff: for a buffer of zeros it gives 0.

**Forwarding.** The check of `active && connected` and the locked push are separate steps. Over
every run: each buffer has one owner and is freed at most once; the queue is a bounded suffix of
the pushes; each connection carries whole frames and at most one part of a frame at its end, and
decodes to exactly the packets of the whole frames; with one producer, the gaps in the sequence
numbers count the losses of every kind. Frames were pushed, though not always made, after the
clear before their connection. From every reachable state an active client's thread comes to a
connection as soon as the server accepts, and an inactive one's comes to its end, exactly if it is
past the start of its loop function; what is queued then stays.

**Archive.** Store ignores errors of Remove and takes every error of Stat for an absent file. A
good and a bad copy are side by side after a run exactly if such a failure put them there and no
later attempt took one away; as long as Stat and Remove work they never are. When no write fails
the latest good copy is kept in every order of arrival. When neither copy remains is stated
exactly as well.

**Other components.** Records are scanned back under any read chunking, and no file, well-formed
or not, is scanned differently when it is read in other pieces. The outer size field is right
exactly when the packet's type matches its stream and the size fits 32 bits. The message codec is
inverse exactly for strings below 65536 bytes, and a stream of messages that is cut anywhere gives
exactly the complete ones. `Options.Accept` searches the configured channels for a descending
order without sorting them; it agrees with membership exactly for lists that are search trees by
their midpoints, which without repeats are the descending ones: the ascending list `[1, 2]`
rejects channel 1. The pool conserves items. A ring slot of the monitor shows the key's last
message for it since the key was last removed; with one feed the last n messages are all there,
with two feeds they need not be, since every feed counts for itself.

## Model

| member | source | states |
|---|---|---|
| Decoder.Reader.ReadFull | proto.go:239 | a full read takes its bytes; nothing left is EOF; a short read drains the reader |
| Decoder.Reader.ReadPreamble | proto.go:204-219 | a word other than the preamble is a skip that takes 4 bytes; else the 16-bit word after it is returned |
| Decoder.Reader.ReadPacket | proto.go:231-243 | the packet is filled in place with sequence, length, payload and checksum, or the read error is returned |
| Decoder.Reader.ReadFragment | proto.go:221-229 | a fragment is its two numbers and a packet; it is final when they are equal |
| Decoder.Reader.CollectFragments | proto.go:176-195 | fragments up to the first final one; a different prefix between them is an error, as `Streams.ChangedPrefixEndsGroup` states over the bytes |
| Decoder.Reader.Assemble | proto.go:184-199 | sequence and length of the final fragment, payloads joined in the order of the sorted numbers |
| Decoder.Reader.DecodePacket | proto.go:163-202 | one decoding step returns the packet or error, and leaves the rest, that the function on bytes gives |
| Decoder.SortInstances | proto.go:120 | the caller's list is sorted in place |
| Decoder.Wanted | proto.go:126-131 | the test is the binary search on the list as it is; on an ascending list that is membership, and an empty list accepts all |
| Decoder.AscendingPassesAccepted | proto.go:126-131 | on every ascending list the search finds exactly the members |
| Decoder.DecodeBinaryPackets | proto.go:112-146 | the loop ends on every input and emits the decoding of the bytes filtered by membership in the unsorted list; the list ends up a sorted permutation |
| Instances.AscendingIsNeverChanged | cmd/hadock/listen.go:240-266 | no interleaving of the connections' sorts changes an ascending list |
| Instances.AscendingFilters | cmd/hadock/listen.go:240-266 | so with an ascending list every connection filters by membership at every moment |
| Instances.AloneSorts | proto.go:120 | an undisturbed in-place sort ends with a sorted permutation |
| Instances.FirstSortSettles | cmd/hadock/listen.go:240-266 | after one undisturbed sort every connection, under every interleaving, filters by membership in the configured list |
| Instances.DisturbedSortLosesInstance | cmd/hadock/listen.go:240-266 | an interleaving of two sorts after which a decoder rejects an instance of the list |
| Sorting.Search | proto.go:126-128 | the binary search of the standard library ends where its midpoint recursion does |
| Sorting.ProbeFindsFirst | proto.go:126-128 | on a predicate that stays true, that is the first index where it is true |
| Sorting.SortIsDetermined | proto.go:196 | distinct keys have one sorted permutation, whatever algorithm sorts |
| Streams.DecodeFrame | proto.go:163-174 | a protocol-0 frame followed by anything decodes to its packet and leaves exactly what follows |
| Streams.FrameByBytes | proto.go:148-161 | the frame format by literal positions, every byte by value |
| Streams.FragmentByBytes | cmd/hadock/replay.go:146-154 | the fragment format by literal positions |
| Streams.DecodedFrameIsCanonical | proto.go:163-174 | whenever a protocol-0 packet is decoded, from any bytes, those consumed are its canonical frame |
| Streams.EncodePacketRoundTrip | proto.go:148-161 | EncodePacket works for version 0 only, and preamble plus encoding decode to the packet if and only if it is a protocol-0 packet with a true length and no fragment numbers |
| Streams.DecodeNoise | proto.go:212-214 | four bytes that are not the preamble are skipped |
| Streams.MisalignedIsLost | proto.go:204-214 | if no word at a multiple of 4 is the preamble, nothing is emitted, whatever frames the stream carries at other offsets |
| Streams.DecodeGroup | proto.go:175-199 | a complete fragment group decodes to its reassembly and leaves exactly what follows |
| Streams.DecodeUnfinished | proto.go:177-187 | fragments without a final one drain the stream and end in EOF |
| Streams.ChangedPrefixEndsGroup | proto.go:188-194 | after any unfinished group, a preamble with another protocol, version or instance is a version mismatch: nothing of the group is emitted, and decoding goes on right after that prefix |
| Streams.NoiseEndsGroup | proto.go:188-191 | after any unfinished group, a word that is not the preamble is a skip: nothing of the group is emitted, and decoding goes on after the word |
| Streams.UnsupportedEndsStream | proto.go:139-172 | a protocol of 2 or more ends the stream, whatever follows |
| Streams.GroupFields | proto.go:169-201 | a group is delivered with number and length of its final fragment, version and instance of its prefix, and neither checksum nor fragment numbers |
| Streams.FilterByInstance | proto.go:129-131 | without a list every frame is emitted, with one exactly those whose instance is in it |
| Streams.ReassemblyInNumberOrder | proto.go:196-199 | fragments of distinct numbers, arriving in any order, give the payload in the order of their numbers |
| Streams.ReassemblyIgnoresOrder | proto.go:175-199 | two orders of arrival of the same fragments, the final one last, decode alike |
| Streams.PacketFitsInput | proto.go:163-202 | every decoded packet took at least 14 bytes more than its payload, 18 in fragments |
| Streams.EmittedFitsInput | proto.go:121-143 | on arbitrary bytes the sum of payload length + 14 over all emitted packets is at most the input length |
| Streams.DecodeWellFormed | proto.go:112-146 | a stream of frames, groups and noise decodes to exactly its accepted packets in order, then to what follows |
| Truncation.CutDecodePacket | proto.go:163-243 | a decoding step that stays within the first k bytes is unaffected by a cut there; any other fails and drains the input |
| Truncation.CutStreamEmitsPrefix | proto.go:112-146 | for any bytes and any cut, what is emitted is a prefix of what the whole stream emits |
| Truncation.CutFrameEmitsNothing | proto.go:231-243 | a frame cut anywhere emits nothing |
| Truncation.CutWellFormed | proto.go:112-146 | a cut stream of frames, groups and noise yields its first packets and nothing else |
| Truncation.CutFrameTakesFromNext | proto.go:231-243 | a frame cut after its header takes its missing bytes from what follows, and decoding goes on after them; if there are too few, nothing is emitted |
| Checksum.SumCompleteBlocks | TcpForwardPlugin/TcpForwardTools.cpp:66-75 | the accumulator stays congruent mod 0xffff to the weighted bytes seen, and cannot overflow 64 bits |
| Checksum.SumBlocks | TcpForwardPlugin/TcpForwardTools.cpp:50-82 | the same for leading partial block, complete blocks and trailing partial block, from any offset |
| Checksum.FoldCarries | TcpForwardPlugin/TcpForwardTools.cpp:84-86 | folding ends, in 16 non-zero bits, congruent mod 0xffff to the sum |
| Checksum.IpChecksum | TcpForwardPlugin/TcpForwardTools.cpp:46-94 | the result is the RFC 1071 checksum of the bytes (0 for a buffer of zeros), whatever the address |
| Checksum.WordSumConcat | TcpForwardPlugin/TcpForwardTools.cpp:66-82 | RFC 1071 section 2: the sum can be computed in parts cut at even offsets |
| Checksum.WeightedSwap | TcpForwardPlugin/TcpForwardTools.cpp:88-90 | RFC 1071 section 2: sums over swapped bytes differ by the factor 256 mod 0xffff |
| Checksum.ChecksumNegatesSum | TcpForwardPlugin/TcpForwardTools.cpp:46-94 | the checksum is the negated sum mod 0xffff, in 0..0xfffe |
| Checksum.ChecksumIsRfcUnlessZero | TcpForwardPlugin/TcpForwardTools.cpp:46-94 | it equals the RFC's own checksum if and only if some byte is not zero |
| Checksum.ReceiverAccepts | TcpForwardPlugin/TcpForwardTools.cpp:46-94 | the receiver's test of RFC 1071 holds for every buffer with the RFC's checksum, and with the transmitted one exactly if some byte is not zero |
| Checksum.DocumentedDump | TcpForwardPlugin/readme.txt:331-347 | the ten messages of the documented dump have the checksums 74 80 down to 74 77 |
| Plugin.TcpForwardPlugin.HandlePacket | TcpForwardPlugin/TcpForwardPlugin.cpp:44-83 | an empty packet or null pointer takes no number; any other takes the next one mod 65536 and the buffer becomes its frame, byte by byte |
| Plugin.PluginFrameDecodes | TcpForwardPlugin/TcpForwardPlugin.cpp:71-80 | the Go decoder reads every frame of the C++ plug-in back, and nothing beyond it |
| Plugin.PluginFrameByBytes | TcpForwardPlugin/TcpForwardPlugin.cpp:71-80 | the plug-in's frame by literal positions |
| Plugin.DocumentedFrames | TcpForwardPlugin/readme.txt:331-347 | the ten frames of the documented dump, byte by byte |
| Plugin.PluginFrameChecks | TcpForwardPlugin/TcpForwardPlugin.cpp:80 | every frame passes the receiver's test of RFC 1071 |
| Plugin.EncodersAgree | cmd/hadock/replay.go:124-136 | given the same checksum function, the replayer and the plug-in write the same bytes |
| Plugin.FrameLengthIsSize | TcpForwardPlugin/TcpForwardClient.cpp:151-152 | the length that the sender reads back out of a buffer is the buffer's length |
| Forward.EnqueueAllKeepsLast | TcpForwardPlugin/TcpForwardClient.cpp:243-250 | pushes without a dequeue leave exactly the last queueSize elements, or all if it is 0 |
| Forward.NextKeepsNumbered | TcpForwardPlugin/TcpForwardPlugin.cpp:55-80 | every step keeps: the k-th buffer is the frame of the k-th packet with sequence k mod 65536 |
| Forward.NextKeepsOwned | TcpForwardPlugin/TcpForwardClient.cpp:118-257 | every step keeps: each buffer is at exactly the recorded place, none is queued or freed twice |
| Forward.NextKeepsBounded | TcpForwardPlugin/TcpForwardClient.cpp:238-257 | every step keeps: the queue is within its bound and a suffix of the push history |
| Forward.NextKeepsWired | TcpForwardPlugin/TcpForwardClient.cpp:151-172 | every step keeps: each connection carries whole frames and one strict part, on the open one what the sender has sent of its buffer |
| Forward.NextKeepsOrdered | TcpForwardPlugin/TcpForwardClient.cpp:118-177 | every step keeps: what is sent, being sent and queued is in the order of production for each thread |
| ForwardRuns.ReachableInvariant | TcpForwardPlugin/TcpForwardClient.cpp:50-257 | all of this holds in every reachable state |
| ForwardRuns.OneOwner | TcpForwardPlugin/TcpForwardClient.cpp:238-257 | in every reachable state a buffer that was made is in exactly one of producer, queue, sender or freed, and is freed at most once |
| ForwardRuns.QueueIsSuffix | TcpForwardPlugin/TcpForwardClient.cpp:242-250 | in every reachable state the queue is the end of the push history and within its bound |
| ForwardRuns.SequenceIsNumber | TcpForwardPlugin/TcpForwardPlugin.cpp:55-77 | the k-th packet takes sequence k mod 65536 |
| ForwardRuns.SentInOrder | TcpForwardPlugin/TcpForwardClient.cpp:134-172 | frames are written in the order of production for each thread, over all connections |
| ForwardRuns.LossAccounting | TcpForwardPlugin/TcpForwardClient.cpp:118-257 | with one producer, everything made between two frames written one after the other was lost, and the number lost is the sequence difference less one mod 65536 |
| EndToEnd.ConnectionDecodes | TcpForwardPlugin/TcpForwardClient.cpp:118-177 | in every run each connection is whole frames plus one strict part, and decodes to exactly those frames' packets in order |
| EndToEnd.WireCarriesFrames | TcpForwardPlugin/TcpForwardClient.cpp:157-170 | the same, from the bytes on the wire and the packets produced alone |
| EndToEnd.PushesKeepLast | TcpForwardPlugin/TcpForwardClient.cpp:242-250 | over every run without a dequeue or clear, whatever else happens in it, the queue is exactly the last of what it held and all that was pushed since, or all of it when unbounded |
| EndToEnd.CallsKeepLast | TcpForwardPlugin/readme.txt:374-376 | one thread that forwards any number of packets at once leaves the last ones queued, as many as the queue holds |
| ForwardPhases.FramesArePushedAfterClear | TcpForwardPlugin/TcpForwardClient.cpp:50-62 | over every run, each frame of a connection made after a clear was pushed after that clear |
| ForwardPhases.StaleFrameIsQueued | TcpForwardPlugin/TcpForwardClient.cpp:240-250 | a thread admitted on the old connection pushes its frame, made before the clear, to the new one |
| ForwardPhases.StaleFrameIsReachable | TcpForwardPlugin/TcpForwardClient.cpp:240-250 | some run leads to such a thread |
| ForwardPhases.ShutdownHoldsExactly | TcpForwardPlugin/TcpForwardClient.cpp:118-124 | after a shutdown the client is never active again until a new start, whatever happens, if and only if the sender thread is past the first line of its loop function |
| ForwardPhases.StoppedLeaves | TcpForwardPlugin/TcpForwardClient.cpp:124-177 | a stopped thread leaves at its next pass through the head of the loop, disconnected, and frees nothing |
| ForwardPhases.LeftoversStay | TcpForwardPlugin/TcpForwardClient.cpp:173-177 | without a sender thread the queue keeps what it held and what is pushed, up to its bound |
| ForwardPhases.StartAndEnter | TcpForwardPlugin/TcpForwardClient.cpp:118-122 | start and the first line of the loop function make the client active; a connected one goes straight into its loop, any other connects first |
| ForwardPhases.ChecksInTurn | TcpForwardPlugin/TcpForwardClient.cpp:240 | each of the two flags is read at its own moment |
| ForwardPhases.DisconnectedPassIsIdle | TcpForwardPlugin/TcpForwardClient.cpp:128-132 | without a connection the sender goes back to the head of its loop and touches nothing |
| ForwardPhases.PassBeforeDelayIsIdle | TcpForwardPlugin/TcpForwardClient.cpp:107-132 | a disconnected pass before the reconnect delay is over changes nothing at all |
| ForwardPhases.ConnectedPassGoesOn | TcpForwardPlugin/TcpForwardClient.cpp:124-136 | while connected the delay makes no difference |
| ForwardPhases.DuePassReconnects | TcpForwardPlugin/TcpForwardClient.cpp:107-136 | a reconnect that is due frees the queue, and connects exactly if the server accepts |
| ForwardPhases.QueuePass | TcpForwardPlugin/TcpForwardClient.cpp:134-172 | a connected sender takes the front of the queue, sends it whole if the network takes it, frees it and goes back to the head |
| ForwardPhases.FailingPass | TcpForwardPlugin/TcpForwardClient.cpp:161-172 | a failing send disconnects, gives the buffer up and goes back to the head |
| ForwardPhases.ActiveConnects | TcpForwardPlugin/TcpForwardClient.cpp:118-132 | from every reachable state of an active client with a sender thread, the thread's own next steps, which are given, lead to a connection as soon as the server accepts |
| ForwardPhases.ComesToTop | TcpForwardPlugin/TcpForwardClient.cpp:124-173 | from every reachable state past its start the thread's own next steps lead to the head of the loop |
| ForwardPhases.InactiveLeaves | TcpForwardPlugin/TcpForwardClient.cpp:124-177 | from every reachable inactive state past its start the thread's own next steps lead to its end |
| ForwardPhases.StopsExactly | TcpForwardPlugin/TcpForwardClient.cpp:118-177 | without a further command an inactive client's thread can come to its end if and only if it is past the first line of its loop function |
| Client.TcpForwardClient.Push | TcpForwardPlugin/TcpForwardClient.cpp:242-250 | a full queue loses its oldest buffer, which is deleted; the new one is last |
| Client.TcpForwardClient.Send | TcpForwardPlugin/TcpForwardClient.cpp:238-257 | while connected the buffer is queued and a full queue loses its oldest; else the buffer is deleted |
| Client.TcpForwardClient.Clear | TcpForwardPlugin/TcpForwardClient.cpp:54-62 | a connect deletes everything queued, in order |
| Client.TcpForwardClient.Dequeue | TcpForwardPlugin/TcpForwardClient.cpp:134-143 | the front of the queue, or null |
| Client.TcpForwardClient.Disconnect | TcpForwardPlugin/TcpForwardClient.cpp:213-222 | not connected afterwards, queue untouched |
| Client.TcpForwardClient.Transmit | TcpForwardPlugin/TcpForwardClient.cpp:151-172 | whatever the network takes, the wire gains a prefix of the frame, the connection survives exactly if it is all of it, and the buffer is deleted once |
| Client.TransmitsAreSteps | TcpForwardPlugin/TcpForwardClient.cpp:157-170 | the partial sends of that loop are steps of the transition system that put the same bytes on the wire |
| Client.PushIsStep | TcpForwardPlugin/TcpForwardClient.cpp:242-250 | the locked push is the step Push: same queue, same deletions |
| Client.SendIsSteps | TcpForwardPlugin/TcpForwardClient.cpp:238-257 | an undisturbed send is the two checks and then Push or Discard |
| Client.ClearIsStep | TcpForwardPlugin/TcpForwardClient.cpp:54-62 | deleting everything queued is the step Clear |
| Client.DequeueIsStep | TcpForwardPlugin/TcpForwardClient.cpp:134-155 | the dequeue is the step Poll, which starts sending the same buffer, or goes back to the top |
| Client.ReleaseIsStep | TcpForwardPlugin/TcpForwardClient.cpp:172 | the delete after the sending loop is the step Release |
| Replay.Connection.constructor | cmd/hadock/replay.go:83-99 | for any flags the version word is protocol 0 or 1 by the size, the VMU version and the mode, cut to 16 bits, shifted and combined; the counter starts at 0 |
| Replay.VersionFieldsExact | cmd/hadock/replay.go:88-96 | the decoder reads the three fields back as given if and only if the VMU version has 4 bits and the mode 8 |
| Replay.Connection.PreparePacketV1 | cmd/hadock/replay.go:124-136 | the bytes are the canonical frame, with the checksum of all bytes before it |
| Replay.Connection.PreparePacketV2 | cmd/hadock/replay.go:138-159 | the bytes are those of the numbered fragments, each with the checksum of its chunk |
| Replay.Connection.Send | cmd/hadock/replay.go:113-120 | the buffers go out in order up to the first failure: the bytes sent are as much of them as the network takes |
| Replay.Connection.Write | cmd/hadock/replay.go:101-122 | the whole frame or group goes out, or, when it is longer than the room before the next fault, exactly that room of it, and an error of that fault's kind is reported; the counter advances mod 65536 either way |
| Replay.FragmentCountExact | cmd/hadock/replay.go:140-142 | there is one fragment more than the number announced as the last, unless the size divides the length |
| Replay.FragmentsByValue | cmd/hadock/replay.go:142-154 | fragment k has bytes k*size up to (k+1)*size of the packet and their checksum, number k and the announced last number, both mod 65536 |
| Replay.FrameEndsInDigest | cmd/hadock/replay.go:126-133 | the last two bytes of a frame are the checksum of all the others |
| Replay.SendableIsRecovered | cmd/hadock/replay.go:138-159 | a packet whose length the size does not divide, in at most 65536 fragments, is decoded whole, whatever follows it |
| Replay.FragmentationExact | cmd/hadock/replay.go:138-159 | for every payload, decoding the fragments recovers payload, sequence, version and instance and consumes all bytes if and only if the size does not divide the length and len/size is at most 65535 |
| Replay.WrappedSpoils | cmd/hadock/replay.go:142-150 | with more fragments than that the numbers wrap and the decoder delivers a shorter packet, whatever bytes follow |
| Replay.DividedSpoils | cmd/hadock/replay.go:140-150 | a packet that the size divides is lost, or, before fragments of further packets, delivered with their beginning in it |
| Replay.DividedNeedsMore | cmd/hadock/replay.go:140-150 | whatever bytes follow such a packet, decoding fails or takes at least one whole fragment out of them |
| Replay.ReplayThenAnything | cmd/hadock/replay.go:101-159 | a run of sendable writes decodes to exactly its packets, whatever bytes follow, and then the decoder goes on with those |
| Replay.ReplayDecodes | cmd/hadock/replay.go:101-159 | a run of sendable writes, in either protocol, decodes to exactly the packets, in order, numbered mod 65536 |
| Replay.ReplayExact | cmd/hadock/replay.go:101-159 | with chunks, a run of packets, empty ones included, arrives as written if and only if each packet is sendable |
| Replay.NothingArrivesExactly | cmd/hadock/replay.go:138-159 | the decoder emits nothing for a run if and only if each packet is empty, or divided by the size with len/size at most 65535 |
| Replay.BrokenReplayDeliversPrefix | cmd/hadock/replay.go:101-122 | a run of sendable writes cut off anywhere decodes to its first packets and nothing else |
| Replay.PermanentFaultCuts | cmd/hadock/replay.go:58-62 | when the first fault is permanent, the bytes sent are those of the whole run cut off there |
| Replay.FaultyReplayStarts | cmd/hadock/replay.go:58-62 | for any faults, and however the replay goes on after temporary ones, the packets written before the first fault are delivered first and unspoiled |
| Replay.OutflowIsTransmission | cmd/hadock/replay.go:58-122 | for any faults the bytes sent are the concatenation, over the packets in order, of each packet's bytes for its own counter, whole where no fault falls and cut exactly where one does; only a permanent fault ends it, so with temporary ones every packet is attempted |
| Records.HrdlSum.Write | vmu/crc.go:38-43 | the running checksum over writes in pieces is the byte sum mod 2^32 of all that was written |
| Records.ByteSumOfMore | vmu/crc.go:38-43 | the sum is 0 for nothing, and each byte adds its value |
| Records.EncodePacket | vmu/encode.go:14-152 | the sequential writes give header, sync word, sizes, covered bytes and checksum, or no record for an unknown stream, type or header version |
| Records.RecordLayout | vmu/encode.go:39-152 | the VMU packet starts at byte 26 and ends the record; what the size field holds |
| Records.RecordByBytes | vmu/encode.go:39-152 | every byte of a record by literal positions and values: sizes, stream, times, sync word, VMU header, data header, payload and checksum |
| Records.RecordIsReadBack | vmu/encode.go:39-152 | a reader of fixed offsets gets stream, both times, the VMU header, the data header and the payload back from every record |
| Records.WrittenExactly | vmu/encode.go:14-37 | exactly tables and images with a version-2 header are written, and with the outer header only those of a known stream |
| Records.PlainRecord | vmu/encode.go:19-23 | without the outer header a record starts at its sync word |
| Records.SizeFieldExact | vmu/encode.go:40-51 | the size field counts the bytes after it if and only if the packet's type is its stream's and the count fits 32 bits |
| Records.ChecksumCoversPacket | vmu/encode.go:93-112 | the last four bytes, little-endian, are the sum of all bytes of the VMU packet before them mod 2^32 |
| Records.ScanYieldsTokens | cmd/hadock/replay.go:197-202 | for any bytes, what the scanner yields is a function of the file's content alone |
| Records.ChunksDoNotMatter | cmd/hadock/replay.go:197-202 | two readings of the same bytes in different pieces yield the same tokens |
| Records.ScanByValue | cmd/hadock/replay.go:212-227 | the answers of the split function for any bytes, by value |
| Records.ScanRecords | cmd/hadock/replay.go:212-227 | under any read chunking a file of records is taken apart into exactly their VMU packets, then the incomplete rest |
| Records.LongestRecordExactly | cmd/hadock/replay.go:183-199 | a record is scanned if and only if it is at most 8 MiB long; a longer one ends the scan |
| Records.RecordRoundTrip | cmd/hadock/replay.go:197-202 | scanning the written records, each with its own times, gives exactly VMU header, data header, payload and checksum of each packet, and an empty last token |
| FileReplay.RunReplay | cmd/hadock/replay.go:48-68 | the replay loop writes the non-empty tokens, limited by the count option, in order; a temporary failure cuts one packet, a permanent one ends the replay |
| FileReplay.LimitByValue | cmd/hadock/replay.go:49 | the count option allows that many turns, all of them for zero or less |
| FileReplay.ReplayedIsRecorded | cmd/hadock/replay.go:48-58 | over any list of record files the tokens to write are exactly their VMU packets, none dropped |
| FileReplay.FilesArrive | cmd/hadock/replay.go:22-70 | record files arrive at the decoder packet by packet, numbered from 0, if and only if they are sent whole or the chunk size suits every packet |
| Messages.DecodeMessageFrom | notifier.go:40-79 | decoding over a reader, with the errors of the middle reads ignored, is the function on bytes |
| Messages.CodecExact | notifier.go:297-326 | decoding inverts encoding and consumes it all if and only if the strings are shorter than 65536 bytes |
| Messages.EncodingByBytes | notifier.go:301-322 | a message by positions: three strings behind their lengths, with the fixed fields after the first |
| Messages.MiddleByBytes | notifier.go:309-316 | the fixed fields by literal positions and values |
| Messages.MiddleOfBytes | notifier.go:61-68 | what the decoder makes of any bytes in the fixed fields, by positions; any byte but zero is true |
| Messages.PrefixIsRejected | notifier.go:40-79 | every strict prefix of an encoding is rejected |
| Messages.ConcatenationDecodes | notifier.go:40-79 | concatenated messages decode to exactly those messages |
| Messages.ConcatenationIsUnique | notifier.go:297-326 | a stream of encoded messages can be read in one way only |
| Messages.CutStreamOfMessages | notifier.go:40-79 | a stream of messages cut anywhere decodes to exactly the complete ones |
| Messages.Accept | notifier.go:87-113 | no options accept all; else instance, searched channel and source decide |
| Messages.SourceByValue | notifier.go:100-111 | realtime, playback and the empty source by value; any other source accepts nothing |
| Messages.DescendingAdmitsWanted | notifier.go:87-113 | for every non-increasing list of channels, accepted is exactly: instance, membership of the channel and source match |
| Messages.ListSearchExact | notifier.go:94-99 | for every list the search is membership for every channel if and only if the list is a search tree by its midpoints, a check on the list alone |
| Messages.ChannelSearchExact | notifier.go:94-99 | for a list without repeats that is the case if and only if it is descending |
| Messages.RepeatsCanBeFound | notifier.go:94-99 | with repeats a list need not be descending: 5, 3, 5 is searched correctly for every channel |
| Messages.AscendingListRejectsMember | notifier.go:94-99 | the configured channel 1 of the list 1, 2 is rejected |
| Messages.ExternalNotifier.Notify | notifier.go:297-326 | an accepted message is written, or as much of it as the network takes and then an error is reported; any other is not written at all |
| Pool.SummaryTells | notifier.go:183-205 | a message by value: its Count is the number of packets mod 2^32; sequence, channel, reference, user information, generation and acquisition second are those of one packet of least sequence, elapsed the saturated time from it to one of greatest sequence |
| Pool.NotificationPool.Notify | notifier.go:137-157 | an item of interest, recent enough, is queued unless the queue is full; any other is dropped |
| Pool.NotificationPool.Take | notifier.go:171-176 | the oldest item joins the end of its own key and no other; conservation is kept |
| Pool.NotificationPool.Tick | notifier.go:177-211 | each cached key gives one message, which tells all of its packets, and the cache is empty; conservation is kept |
| Pool.TakeConserves | notifier.go:171-176 | a dequeue keeps: per key, emitted then cached packets are those dequeued, in order |
| Pool.EmitConserves | notifier.go:178-210 | emitting a key keeps the same |
| Pool.CountsAddUp | notifier.go:159-210 | after any run the Counts of all messages sent and the cached items add up to the items dequeued |
| Pool.MessagesAreOfTheirKey | notifier.go:175-204 | after any run every message sums up items that were dequeued, all of its own mode, origin and instance |
| WebMonitor.Monitor.Monitor | distrib/monitor.go:84-116 | one decoded message takes the next count and the slot of its feed's index in the ring of its key; all other slots and rings stay |
| WebMonitor.Monitor.Clean | distrib/monitor.go:71-82 | a tick removes exactly the keys without a message for more than 15 minutes |
| WebMonitor.CleanByValue | distrib/monitor.go:76-78 | a ring is removed exactly if its last message is more than 900 seconds old |
| WebMonitor.KeyByValue | distrib/monitor.go:93-97 | two messages share a ring exactly if origin, mode and instance agree |
| WebMonitor.HasRing | distrib/monitor.go:71-116 | over every run a key has a ring exactly if it had a message since it was last removed |
| WebMonitor.RingAgreesWithLog | distrib/monitor.go:84-116 | over every run with any number of feeds, slot j of a key shows the key's last message since its removal whose index in its feed is j mod n, or nothing if there is none |
| WebMonitor.RecentAreShown | distrib/monitor.go:84-116 | with one feed every message of a key among the last n decoded is shown, unless the key was removed since |
| WebMonitor.FeedsCollide | distrib/monitor.go:56-66 | with two feeds the second message of all can push out the first, however many slots there are |
| Archive.FileStore.Store | storage/files.go:63-98 | the directory after each way a store can end, with Stat, Remove, the write, the link or the metadata failing, and whether an error is reported |
| Archive.ExtIsBad | storage/files.go:73-74 | the extension is .bad exactly if the name ends in .bad |
| Archive.AttemptByValue | storage/files.go:63-98 | calls that fail before the write change nothing; one that succeeds, or fails only in the link or the metadata, leaves the content; a failed write leaves what it leaves |
| Archive.AttemptOnPair | storage/files.go:63-98 | what any attempt, on any name and whatever fails in it, does to a good name and its bad name |
| Archive.DoubledExactly | storage/files.go:73-88 | one attempt puts both copies side by side if and only if it leaves a file, and is the good copy beside a bad one that Remove failed on, or the bad copy beside a good one that Stat failed on |
| Archive.LostExactly | storage/files.go:84-90 | a single attempt loses both copies if and only if its write leaves no file, and it is the good one without a bad one left beside it, or the bad one in the absence of the good one |
| Archive.PairAfterRun | storage/files.go:63-98 | with removal of bad copies, over every run with any failures: the good name holds what its last write left, the bad name what the last attempt that touched it left |
| Archive.DoubledAfterRunExactly | storage/files.go:73-88 | after a run both copies are there if and only if some attempt put them there by a failed Remove or Stat, and no later one took one away |
| Archive.NeverBoth | storage/files.go:73-88 | as long as Stat and Remove work, good and bad copy never coexist, not even after failed writes |
| Archive.FailedRemoveDoubles | storage/files.go:84-88 | a bad copy and then a good one whose removal of the bad one fails: both stay |
| Archive.FailedStatDoubles | storage/files.go:73-77 | a good copy and then a bad one whose Stat fails: both stay |
| Archive.GoodCopyWins | storage/files.go:63-98 | when no write fails, in every order of arrival a good name holds its latest good copy; if Stat and Remove work, its bad name holds nothing once there is one, and else the latest bad copy |
| Archive.NeitherExactly | storage/files.go:84-90 | from a directory with neither, neither copy remains if and only if the last write of the good one, if any, left no file, and the last attempt that touched the bad one, if any, left nothing |
| Archive.OneCopyRemains | storage/files.go:84-90 | as long as every write leaves a file, at least one of the two is there exactly if one was written |
| Archive.KeptCopies | storage/files.go:84-88 | when bad copies are kept every name holds what its last write left |

## Left out

- Sorting.SortBy: elements of equal key keep their order; `sort.Slice` leaves it open, so for fragments with equal numbers, and packets with equal sequences in a batch, the model picks one of the possible orders. `Sorting.SortIsDetermined` covers distinct keys.
- Checksum.IpChecksum: buffers of 16 GiB and more are not covered; the 64-bit accumulator is shown not to overflow below that, and a frame is always shorter.
- Plugin.TcpForwardPlugin.HandlePacket: a negative packet size, or one whose frame does not fit a signed 32-bit int, is not modelled; the buffer size is then undefined.
- Replay.Connection.Write: the byte count it returns and the rate limiter are not modelled; packets of 4 GiB and more, whose length field would wrap, are excluded here and in `Replay.Connection.PreparePacketV1` and `Replay.Connection.PreparePacketV2`: the replay loop hands over no more than the scanner's 8 MiB.
- FileReplay.RunReplay: interrupts are left out. What the decoder makes of a frame cut within its header, or of a cut fragment, and of what follows it, is not stated beyond `Truncation.CutFrameTakesFromNext`: it depends on all following bytes.
- Instances.Next: the sort is the insertion sort that the standard library uses for up to 12 elements, with swaps that are not torn; longer lists are sorted by another algorithm there.
- `sum.Sum1071Bis` is a function parameter of the replayer's model; `panda` packets are their fields, and the science and image headers are opaque bytes of the length the constants give. `panda` and `sum` are not part of this model.
- The comparison of the checksum in `DecodeBinaryPackets`: it has no effect on what is emitted.
- Memory exhaustion by a huge length field: the decoder allocates the announced length before it reads; the model only reads.
- A failing `gethostbyname`, which throws in the sender thread; time, which appears as the choice whether a reconnect is due; and writes to a connection after it is closed.
- `TcpForwardClient::disconnect` and `connect` called from threads other than the sender, as only the test driver does; a Start while the sender is running.
- The inner size field of HRDP records: written as the code writes it, with the science header's length for images too; nothing is claimed about it.
- Records.ScanVMUPackets: a size field below 22 makes the program panic; the scan of such a file stops there in the model.
- Records.Scan: the end of a file reported together with its last bytes, and a hundred empty reads in a row, which make the scanner give up; regular files give neither.
- Archive.FileStore.Store: directories are one directory, names are given; a Stat that reports a file that is not there is not modelled; the content of `.xml` metadata and share links, and targets that are not regular files, are not modelled.
- Pool.NotificationPool.Tick: the goroutines that sort and notify run at once in the model; a message's user information is a field.
- WebMonitor.Monitor.Monitor: the conversion of the generation time and the choice of the identifier are parameters; counters are unbounded where the program has a 64-bit index. `decodeMessage` never reports an error, so its input is taken as decoded.
- `DecodeCompressedPackets`, `proxy.go`, the rollers, the HTTP handlers, the TOML and command-line setup, multicast subscription, plug-in loading, `cascading`, `hdk2udp`, and the image and science exporters: plumbing and format conversion.
