# TFTP harness: the reference engine and its instruments, verified

This project models the parts of the TFTP test harness on which its claims
rest, and proves what they promise for every input, every run and every
schedule of the network.

At the centre are the two data loops of the reference engine: a windowed sender
(`run_data_sender`) and a receiver (`run_data_receiver`), joined by a network
that may lose, duplicate, reorder, delay and damage datagrams and let anyone
else speak.

* `DataPlane` gives each loop as a step function over what its socket delivers;
  `LockedPeer` adds the transfer-ID discipline and whole runs; `Engine` holds the
  loops themselves, as methods over a socket object, proved to end as those runs
  end, to send exactly that traffic and to report exactly that outcome; `Endings`
  says which reading ends a loop in which way, and what it sends meanwhile.
* `Network` joins a sender and a receiver. A schedule is any sequence of moves:
  deliver any block or acknowledgement ever sent, intact or with a flipped
  opcode bit, or hand either end anything that is not the peer's own DATA or
  ACK. `JointSafety` and `WraparoundSafety` hold on every schedule; `Progress` and
  `Lossless` say what can and must be delivered; `Limits` shows that the
  conditions of safety are exact.
* `Delivery` says when the sender's success means the receiver's, and `Phantoms` what
  damage to an ERROR or OACK, which can turn it into an ACK nobody sent, may do.
* `Negotiation`, `Codec`, `Corruption`, `Netascii`, `Impairments`, `ContentOracle` are
  the stages around the transfer. `WireFormat` gives the bytes of every packet,
  `Grants` what each option is worth, `FaultRates` how often each fault strikes. `Ends` ties the joint run to the two loops on
  their sockets, and `EndToEnd` composes all of them: whatever is asked for and
  whatever the network does to DATA and ACK, the receiving end's success means
  that the file is saved and the oracle finds it intact, and it is proved exactly
  when the sending end's success means that too.
* `Observer`, `Recording` and `SelfVerification` turn the harness's headline claim (it
  flags the defective engine and clears the correct one) into theorems about
  every run, observed on the trace the proxy records of it.
* `Prng`, `Throttle`, `Sha256`, `Hasher` and `Json*`, `MetricRecords`, `MetricsStore` are the
  pieces the harness leans on: the random numbers, the token bucket, the digest,
  and the crash-safe store with the JSON under it. `Likelihood` counts the states
  each draw can come from; `Sha256Standard` and `Sha256Example` check the digest
  against its standard, down to the roots of the primes and the digest of "abc";
  `JsonStrings` and `JsonGrammar` say which texts the reader accepts. `Doubles` and
  `WholeDoubles` say what six printed digits keep of a double.

Some things hold only under a condition, and then the condition is proved
exact.  Each of these decides, the others granted, whether a transfer is safe on
every schedule: no wire number is reused (`SafeIffNoReuse`), the receiver takes no
full block for a short one (`SafeIffBlockSizesFit`), there is nothing to accept out
of sequence (`SafeIffInSequence`), no damaged ERROR or OACK names a block
(`SafeUnderDamageIff`).  And whether success reported at either end of a session can
be believed is decided by `BelievableIff`. Netascii keeps a file if and only if it has no CR LF
(`SurvivesIffNoCrLf`); a packet survives the wire if and only if its strings hold no
NUL and its option names are not empty (`RoundTripIffWellFormed`).  Two conditions
limit what the store may be used for.  From 2^53 on a run's seed is written with
six significant digits only, so a recorded seed reads back right if and only if
it is below 2^53 (as a signed number) or has no digit beyond its sixth
(`SeedSurvivesIff`, with a lost one in `SomeSeedIsLost`).  And a counter such as a
throughput reads back right if and only if it is whole and below 10^15 or the
double nearest to a six-digit decimal (`DoubleSurvivesIff`, `SomeCounterIsLost`).
Two of the observer's verdicts are narrower than their names: an upload without
options never shows that the server took a fresh transfer ID (`FreshTidVerdict`), and
a wraparound is reported only when there was one if and only if windows stay within
65436 (`WraparoundVerdict`, `FalseWraparound`).

Conventions: bytes are integers below 256; text holds one byte a character; the
socket is a script of events followed by silence for ever, so that every run of
a loop ends; durations and rates are exact reals; random decisions are made
from the modelled generator.

## Model

| member | source | states |
|---|---|---|
| DataPlane.BlockExtendsPrefix | adapters/reference/tftp_reference_engine.cpp:62-83 | each block continues the payload where the one before stopped, and a block is short exactly when it is the last |
| DataPlane.AllBlocksAreThePayload | adapters/reference/tftp_reference_engine.cpp:62-83 | all blocks together are the payload, with or without the empty terminator |
| DataPlane.ResolveAck | adapters/reference/tftp_reference_engine.cpp:90-100 | an ACK resolves to the highest outstanding block with its number, or to none |
| DataPlane.ResolveAckToAbsolute | adapters/reference/tftp_reference_engine.cpp:90-100 | the search loop finds that block |
| DataPlane.ResolveDataToAbsolute | adapters/reference/tftp_reference_engine.cpp:105-124 | the two search loops, forward then backward, find what the specification places |
| DataPlane.ResolveDataIsNextIffWireIsNext | adapters/reference/tftp_reference_engine.cpp:105-124 | a DATA is placed next if and only if its number is the next one modulo 65536, and never beyond the window |
| DataPlane.HandleDataIsSimple | adapters/reference/tftp_reference_engine.cpp:331-380 | on one DATA the window search does what the textbook receiver does, duplicates and gaps answered alike; the out-of-sequence defect shows only on a number placed beyond the next block |
| DataPlane.ReceiverRefinesSimple | adapters/reference/tftp_reference_engine.cpp:276-404 | on every input sequence the receiver equals the one that accepts only the next number; with a window of 1 even under the out-of-sequence defect |
| DataPlane.SenderStepKeepsInvariant | adapters/reference/tftp_reference_engine.cpp:197-262 | at every receive point exactly min(window, rest) blocks are outstanding; acknowledgement and window edge only advance; only blocks of the window are sent |
| DataPlane.StaleAckResponse | adapters/reference/tftp_reference_engine.cpp:239-262 | RFC 1123 section 4.2.3.1: a stale or duplicate ACK leaves a correct sender unchanged and silent, and makes the defective one resend the whole window |
| DataPlane.SendsCoverExactly | adapters/reference/tftp_reference_engine.cpp:190-217 | in every run the blocks sent are exactly 1 to the highest sent, and the surplus over one each is the retransmission count |
| DataPlane.RunBoundsRetransmissions | adapters/reference/tftp_reference_engine.cpp:205-217 | over any run of a sender without the duplicate-ACK defect, every retransmission is paid for by a timeout: at most a window for each |
| DataPlane.RunBoundsTimeouts | adapters/reference/tftp_reference_engine.cpp:220-237 | each block bought by progress renews the patience once, so timeouts over a run stay within the budget |
| DataPlane.SenderAccounting | adapters/reference/tftp_reference_engine.cpp:170-267 | over every run: packets counted equal blocks sent, all of them on success; retransmissions at most window times timeouts; timeouts at most patience times blocks plus one |
| LockedPeer.SenderIgnoresStrays | adapters/reference/tftp_reference_engine.cpp:135-163 | RFC 1350 section 4: dropping all foreign and malformed datagrams changes neither the sender's outcome nor a byte to its peer; each foreign one read gets one ERROR 5 at its own source |
| LockedPeer.ReceiverIgnoresStrays | adapters/reference/tftp_reference_engine.cpp:135-163 | the same for the receiver, sink included |
| LockedPeer.InsertedStraysAreInvisible | adapters/reference/tftp_reference_engine.cpp:135-163 | strays inserted anywhere in the input leave outcome, sink and traffic to the peer as they were |
| LockedPeer.SenderToEnd | adapters/reference/tftp_reference_engine.cpp:197-267 | the sender's loop ends on every input, silence included, by acknowledgement, patience and input left |
| LockedPeer.ReceiverToEnd | adapters/reference/tftp_reference_engine.cpp:294-404 | the receiver's loop and its dally end on every input |
| LockedPeer.SocketRunIsReadingRun | adapters/reference/tftp_reference_engine.cpp:135-267 | a run on a socket always ends and is the run over its readings, so the accounting theorems hold for it |
| Engine.UdpSocket.ReceiveFrom | adapters/reference/tftp_reference_engine.cpp:141-147 | takes one event; an empty datagram looks like a timeout |
| Engine.ReceiveFromLockedPeer | adapters/reference/tftp_reference_engine.cpp:135-163 | returns the peer's first well-formed packet, timeout or error; rebuffs exactly the foreign datagrams before it, in order |
| Engine.SendBlocks | adapters/reference/tftp_reference_engine.cpp:205-217 | sends the blocks of a range in order and counts them |
| Engine.RunDataSender | adapters/reference/tftp_reference_engine.cpp:170-267 | the loop with its local variables ends as the specified run ends and sends exactly that traffic; success is reported if and only if the run completed, that is, if the last block was acknowledged, a timeout if and only if it gave up, an error code if and only if the peer sent an ERROR with it, the payload's size on success and 0 otherwise, and the counters are the run's |
| Engine.Dally | adapters/reference/tftp_reference_engine.cpp:384-399 | after the final block at most four packets are answered, DATA with the final ACK, until silence |
| Engine.RunDataReceiver | adapters/reference/tftp_reference_engine.cpp:276-404 | the receiving loop, primed or not, ends as the specified run ends, with its sink and traffic, and reports it in the same way, with the size of the sink on success |
| Endings.SenderEndsFor | adapters/reference/tftp_reference_engine.cpp:219-262 | the reading that ends a sender's run says how: the peer's ERROR with its code and text, a socket error, the ACK of the last block, or the timeout that is one too many since the last progress |
| Endings.ReceiverEndsFor | adapters/reference/tftp_reference_engine.cpp:301-331 | the same for the receiver, whose patience every DATA renews; it never completes from waiting |
| Endings.SenderResponses | adapters/reference/tftp_reference_engine.cpp:197-217 | RFC 7440 section 4: on a timeout everything outstanding is sent again, in order and once, and a window that slides sends just the blocks that have come into it |
| Endings.AnswersWithinWindow | adapters/reference/tftp_reference_engine.cpp:334-380 | RFC 7440 section 4: a waiting receiver answers each DATA with the number it has come to, or stays silent over fewer than a window of accepted blocks |
| Endings.DallyAnswersFour | adapters/reference/tftp_reference_engine.cpp:384-399 | after the final block up to four packets are taken, until nothing comes; exactly the DATA among them are answered, with the final ACK, and then the run completes |
| Network.AckResolvesExactly | adapters/reference/tftp_reference_engine.cpp:85-100 | a fresh ACK resolves to the block it was sent for, across any wraparound |
| Network.DataAcceptedIffNext | adapters/reference/tftp_reference_engine.cpp:102-124 | a fresh DATA is accepted if and only if it is the next block, across any wraparound |
| Network.DamageIsLoss | src/net/impairments.cpp:37-80 | a DATA or ACK with one flipped opcode bit changes nothing at the far end, except that a dallying receiver counts it |
| Network.ShortBlockCompletes | adapters/reference/tftp_reference_engine.cpp:334-352 | a block that is short for the receiver ends with the end of the payload |
| Network.ApplyKeepsInvariant | adapters/reference/tftp_reference_engine.cpp:170-404 | every move of the network and of either end keeps the joint invariant |
| Network.ExecKeepsInvariant | adapters/reference/tftp_reference_engine.cpp:170-404 | so does every schedule, of any length, with fresh deliveries or fewer than 65536 blocks |
| Network.JointSafety | adapters/reference/tftp_reference_engine.cpp:170-404 | up to 65535 blocks, no full block mistaken for a short one, out-of-sequence acceptance off or with nothing to accept: on every schedule, with damage to DATA and ACK, the sink is a prefix of the payload by whole blocks, last acknowledged <= last in sequence <= highest sent, and success at either end means sink == payload |
| Network.WraparoundSafety | adapters/reference/tftp_reference_engine.cpp:52-124 | the same for transfers of any length when nothing reaches a waiting end a full cycle of numbers late |
| Network.OmittedTerminatorNeverCompletes | adapters/reference/tftp_reference_engine.cpp:182-187 | with the omitted empty terminator the receiver succeeds on no schedule |
| Limits.StaleAckOvertakes | adapters/reference/tftp_reference_engine.cpp:90-100 | once block 65536 is outstanding, an ACK 0 still in flight passes for it and safety is broken |
| Limits.GapDrawsAckZero | adapters/reference/tftp_reference_engine.cpp:353-380 | without a handshake ACK, block 2 delivered first draws an ACK 0 and changes nothing else |
| Limits.TimeoutDrawsAckZero | adapters/reference/tftp_reference_engine.cpp:305-320 | so does a timeout of the receiver before block 1, which block 1 then makes forgotten |
| Limits.StaleBlockOvertakes | adapters/reference/tftp_reference_engine.cpp:331-352 | with a window of one, block 1 delivered late passes for block 65537 before that was ever sent |
| Limits.SafeIffNoReuse | adapters/reference/tftp_reference_engine.cpp:52-124 | for every matched link whose receiver may wait before block 1, as on an upload: every schedule is safe if and only if there are at most 65535 blocks, or exactly 65536 and no ACK 0 can ever be in flight (none from the handshake, windows of one, a receiver that never repeats an ACK on timeout) |
| Limits.PrimedSafeIffNoReuse | adapters/reference/tftp_reference_engine.cpp:567-581 | for a receiver that starts on block 1, windows of one and no handshake ACK, as on a plain download: if and only if there are at most 65536 blocks |
| Limits.SmallBlocksTruncate | adapters/reference/tftp_reference_engine.cpp:948-961 | a receiver with the larger block size, as after a lost OACK on an upload, takes the first block for the last and reports success with a truncated file |
| Limits.SafeIffBlockSizesFit | adapters/reference/tftp_reference_engine.cpp:313-352 | up to 65535 blocks and without the out-of-sequence defect, every schedule is safe if and only if the receiver's block size is at most the sender's or the payload fits one block |
| Limits.SkippedBlockCorrupts | adapters/reference/tftp_reference_engine.cpp:361-373 | under the out-of-sequence defect with windows of 2 or more, losing block 1 writes block 2 first, and a two-block transfer then succeeds with wrong bytes |
| Limits.OldBlockCorrupts | adapters/reference/tftp_reference_engine.cpp:105-124 | even a sender of one block at a time is not safe from the defect: an old block is placed ahead once the receive window reaches a full cycle past it |
| Limits.SafeIffInSequence | adapters/reference/tftp_reference_engine.cpp:361-373 | equal block sizes and up to 65535 blocks: every schedule is safe if and only if out-of-sequence blocks are refused, or the receiver looks no further than the next block, or the sender is never two blocks ahead and reuses no number inside the receive window |
| Delivery.SuccessIsReceiptIff | adapters/reference/tftp_reference_engine.cpp:197-262 | on every schedule of a sound link the sender's success means the receiver's, if and only if the last block sent is short for the receiver |
| Delivery.SuccessWithoutReceipt | adapters/reference/tftp_reference_engine.cpp:334-352 | otherwise on some schedule the sender succeeds while the receiver waits for more: with an omitted terminator, or smaller receive blocks |
| Delivery.AlwaysTruncated | adapters/reference/tftp_reference_engine.cpp:334-352 | a receiver that expects larger blocks never holds more than the first when it succeeds, and the sender never succeeds |
| Phantoms.OtherDamageIsOrdinary | src/net/tftp_packet.cpp:120-198 | damage to an ERROR or OACK that makes no ACK of it is harmless at either end |
| Phantoms.SafeUnderDamageIff | src/net/impairments.cpp:37-80 | with control packets damaged too, every schedule of a sound link of at most 65535 blocks is safe if and only if none of the numbers they can turn into is that of a block |
| Progress.BlockDelivered | adapters/reference/tftp_reference_engine.cpp:331-380 | an intact block advances the receiver by one, or has its last ACK repeated |
| Progress.RepeatDrawsTheAck | adapters/reference/tftp_reference_engine.cpp:353-360 | a window received but not acknowledged is acknowledged as soon as any block of it comes again |
| Progress.RecoveryAdvances | adapters/reference/tftp_reference_engine.cpp:197-262 | from every reachable state still underway, in-order delivery after one timeout, or after two when the receive window is the larger, strictly advances the sender |
| Progress.CompletesFrom | adapters/reference/tftp_reference_engine.cpp:170-404 | from there some finite continuation ends both loops in success with the payload delivered |
| Progress.EveryRunCanComplete | adapters/reference/tftp_reference_engine.cpp:170-404 | after any schedule that leaves the transfer underway it can still be completed |
| Progress.EveryTransferCanComplete | adapters/reference/tftp_reference_engine.cpp:170-404 | every transfer whose sender has patience for that has a completing schedule |
| Lossless.StaysInStep | adapters/reference/tftp_reference_engine.cpp:197-382 | on a lossless first-in first-out network each step delivers the only packet there is, window by window |
| Lossless.LosslessRunCost | adapters/reference/tftp_reference_engine.cpp:197-382 | there the transfer takes exactly one DATA for each block and ceil(blocks / window) ACKs, and no retransmission |
| Lossless.AfterIsReachable | adapters/reference/tftp_reference_engine.cpp:197-382 | that run is one of the schedules of the general network |
| Corruption.FlippedDataIsForeignToItsLoop | src/net/tftp_packet.cpp:120-198 | a DATA with any one opcode bit flipped parses, if at all, as a request, which the data loops ignore |
| Corruption.FlippedAckNeverParses | src/net/tftp_packet.cpp:96-198 | an ACK with any one opcode bit flipped never parses |
| Corruption.FlippedControlIsAckIff | src/net/tftp_packet.cpp:120-198 | an ERROR or OACK with one opcode bit flipped reads as an ACK for exactly one bit, of the error code or of the first two bytes of the first option name, and never as DATA |
| Codec.RoundTripIffWellFormed | src/net/tftp_packet.cpp:200-272 | RFC 1350 section 5: a packet is parsed back from its bytes if and only if its strings hold no NUL and its option names are not empty |
| Codec.ParsedReencodes | src/net/tftp_packet.cpp:120-198 | whatever parses is well formed and re-serializes to the bytes read: all of them for RRQ, WRQ, DATA and OACK, a prefix for ACK and ERROR |
| Codec.ReadCString | src/net/tftp_packet.cpp:31-43 | takes the bytes up to the first NUL and moves past it, or fails without one |
| Codec.ParseOptionList | src/net/tftp_packet.cpp:96-116 | the cursor loop reads exactly the name and value pairs of the specification and fails where it fails |
| Codec.ParseTftpPacket | src/net/tftp_packet.cpp:120-198 | the parser computes the specified packet or failure on every datagram |
| Codec.AppendOptions | src/net/tftp_packet.cpp:207-211 | the serializing loop appends every option with its two NULs |
| Codec.SerializeRequest | src/net/tftp_packet.cpp:200-226 | a request's bytes are those the round trip is proved for |
| Codec.SerializeOptionAcknowledgement | src/net/tftp_packet.cpp:262-272 | so are an OACK's |
| Codec.EqualsIgnoreAsciiCase | src/net/tftp_packet.cpp:47-60 | RFC 2347 section 2: true if and only if the names agree after lowering A to Z |
| WireFormat.TransferPackets | src/net/tftp_packet.cpp:228-260 | RFC 1350 section 5: the bytes of DATA, ACK and ERROR, opcodes 3, 4 and 5 |
| WireFormat.ControlPackets | src/net/tftp_packet.cpp:200-272 | RFC 1350 section 5 and RFC 2347: the bytes of RRQ, WRQ and OACK, opcodes 1, 2 and 6, each string followed by a zero byte |
| WireFormat.ParsesIff | src/net/tftp_packet.cpp:120-198 | a datagram is taken for a packet if and only if the packet is well formed and the datagram is its encoding, with anything behind it for an ACK or an ERROR |
| WireFormat.CaseDoesNotMatter | src/net/tftp_packet.cpp:47-60 | RFC 2347 section 2: names are equal if and only if their characters are, letter by letter and in either case |
| WireFormat.NumbersGoRound | adapters/reference/tftp_reference_engine.cpp:52-57 | block numbers have sixteen bits, and 65535 is followed by 0 |
| WireFormat.ForeignerGetsError5 | adapters/reference/tftp_reference_engine.cpp:148-154 | RFC 1350 section 4: whoever else sends anything gets an ERROR with code 5 at its own source, byte for byte, and nobody else does |
| Negotiation.StoulReadsDigits | adapters/reference/tftp_reference_engine.cpp:785-846 | a printed 64-bit number is read back by std::stoul |
| Negotiation.NegotiateServerOptions | adapters/reference/tftp_reference_engine.cpp:777-846 | the loop grants, clamps, declines or skips each option as specified, in request order |
| Negotiation.ApplyOackToClient | adapters/reference/tftp_reference_engine.cpp:448-487 | the client's loop accepts, rejects or throws at the same option as specified |
| Negotiation.OptionAgreement | adapters/reference/tftp_reference_engine.cpp:777-846 | what the server puts in force for one option the client reads back from the OACK |
| Negotiation.OptionsAgree | adapters/reference/tftp_reference_engine.cpp:448-487 | for every option list, any case, repeated or unreadable, a client that asked for the options accepts the OACK and ends with the server's parameters |
| Negotiation.BuiltListIsRequested | adapters/reference/tftp_reference_engine.cpp:424-443 | the client's own request names only options it will accept |
| Negotiation.GrantsAreLegal | adapters/reference/tftp_reference_engine.cpp:411-413 | from legal defaults block size stays in [8, 65464] and window in [1, 65535] |
| Negotiation.NegotiationAgrees | adapters/reference/tftp_reference_engine.cpp:424-487 | equal legal defaults, any request and any server leave both ends with equal legal parameters |
| Grants.StoulReads | adapters/reference/tftp_reference_engine.cpp:785-846 | the value of an option: space in front and anything behind the digits are ignored, a minus is taken modulo 2^64, and what does not fit 64 bits is refused |
| Grants.StoulRefuses | adapters/reference/tftp_reference_engine.cpp:785-846 | and without a digit there is none |
| Grants.LastOptionDecides | adapters/reference/tftp_reference_engine.cpp:777-846 | of each name the last option that can be read and is not declined decides: a block size becomes the nearest in [8, 65464], a window at most what was asked, a timeout from 1 to 255 just that, and the transfer size the file's on a read and the client's own on a write; nothing else changes |
| Grants.LegalRequestIsGranted | adapters/reference/tftp_reference_engine.cpp:424-443 | a client that asks for legal values gets exactly those that both ends support, and the OACK names them in the client's order and nothing else |
| Grants.OackAcceptedIff | adapters/reference/tftp_reference_engine.cpp:448-487 | RFC 2347 section 2: an OACK is accepted if and only if every option in it was asked for and can be read; otherwise the first at fault decides between ERROR 8 and the exception |
| Netascii.EncodedIsWellFormed | src/net/netascii.cpp:11-40 | in encoded text every CR is followed by LF or NUL and every LF follows a CR |
| Netascii.DecodeEncode | src/net/netascii.cpp:42-68 | decode after encode removes one CR before each LF that has one and nothing else |
| Netascii.SurvivesIffNoCrLf | src/net/netascii.cpp:11-68 | text survives byte for byte if and only if it has no CR LF |
| Netascii.CutDecodesTheSameIff | src/net/netascii.cpp:42-68 | encoded text cut short decodes to the same if and only if all that is cut off is a final CR's NUL |
| Netascii.DecodeUnchangedIff | src/net/netascii.cpp:42-68 | decoding leaves alone exactly what holds neither CR LF nor CR NUL; a CR before anything else is passed through |
| Netascii.EncodeLocalToNetascii | src/net/netascii.cpp:11-40 | the index loop with its skips computes that encoding |
| Netascii.DecodeNetasciiToLocal | src/net/netascii.cpp:42-68 | the index loop with its skips computes that decoding |
| Impairments.ImpairmentPipeline.DecideLoss | src/net/impairments.cpp:7-35 | the loss stages draw from the generator in order and move only the channel at hand; the decision and the new state are exactly the specified ones |
| Impairments.ImpairmentPipeline.MaybeCorrupt | src/net/impairments.cpp:37-80 | the draws pick the byte and the bit as specified, and a datagram is reported corrupted if and only if it changed |
| Impairments.ImpairmentPipeline.ThrottleDelay | src/net/impairments.cpp:82-104 | refills, caps and charges the bucket and returns the debt in whole milliseconds |
| Impairments.ImpairmentPipeline.Process | src/net/impairments.cpp:106-169 | result and whole new state, generator included, are those of the specified stages, so a session is replayed by its seed |
| Impairments.CorruptionIsOneTargetedBit | src/net/impairments.cpp:37-80 | a datagram changes, if at all, by exactly one bit of the targeted field, and certainly at probability one; its length is kept |
| Impairments.ProcessDelivers | src/net/impairments.cpp:106-169 | what is dropped charges nothing; what passes comes once or twice, with the same bytes, within the configured delays |
| Impairments.BlackoutHolds | src/net/impairments.cpp:112-132 | over every session the count is exactly the DATA let through, at most n under a blackout after n, and from then on nothing passes and nothing changes |
| Impairments.RestIsTransparent | src/net/impairments.cpp:106-169 | over every session with the faults at rest each datagram passes once, unchanged, after the fixed delay, and nothing but the count moves |
| Impairments.CertainLossPassesNothing | src/net/impairments.cpp:7-35 | over every session under certain loss nothing passes and nothing changes |
| Impairments.OpcodeCorruptionIsOneOpcodeBit | src/net/impairments.cpp:47-66 | corruption of the opcode field is one flipped bit of the sixteen, and each of them is possible |
| FaultRates.UniformLossRate | src/net/impairments.cpp:8-12 | without the burst model a datagram is lost from just as many of the 2^64 generator states as the uniform probability asks for |
| FaultRates.ChannelMoveRate | src/net/impairments.cpp:13-24 | a bad channel recovers and a good one turns bad each with its own probability |
| FaultRates.BurstLossRate | src/net/impairments.cpp:25-33 | and the loss is that of the state the channel has come to |
| FaultRates.OwnChannelDecides | src/net/impairments.cpp:13-24 | over every session each datagram is judged by the channel of its own direction |
| FaultRates.CorruptionRate | src/net/impairments.cpp:37-43 | a datagram with a header is damaged with the configured probability |
| FaultRates.BitRate | src/net/impairments.cpp:47-56 | each of the eight bits of the byte that is hit is flipped from exactly an eighth of the states |
| FaultRates.HeaderByteRate | src/net/impairments.cpp:59-65 | either byte of the opcode, or of the block number, is hit from exactly half of them |
| FaultRates.TargetedByteRate | src/net/impairments.cpp:66-78 | every byte of the payload, or of the datagram, is hit from equally many of the states whose next output is accepted |
| FaultRates.HoldingRate | src/net/impairments.cpp:147-150 | without jitter a datagram is held back with the configured probability, by just the extra delay |
| FaultRates.JitterRate | src/net/impairments.cpp:137-144 | every jitter in range comes from equally many of the states whose next output is accepted |
| FaultRates.DuplicationRate | src/net/impairments.cpp:158-166 | when nothing else is left to chance a datagram comes twice with the configured probability |
| Throttle.TruncationCostsLessThanAMillisecond | src/net/impairments.cpp:100-103 | the scheduled delay is short of the exact one by less than a millisecond |
| Throttle.DeadlinesNondecreasing | src/net/impairments.cpp:82-104 | for arrivals in order release deadlines are nondecreasing |
| Throttle.ThrottleBound | src/net/impairments.cpp:82-104 | between any two deadlines at most rate times gap plus one second of traffic passes, and from the start at most rate times elapsed |
| Throttle.ReleasedWithinRate | src/net/impairments.cpp:82-104 | at every moment what was released is within rate times the time since the start |
| Throttle.TokensAreTheLeast | src/net/impairments.cpp:88-96 | the bucket holds exactly the least of its balances: since the start, or since it could last have been full |
| Throttle.WaitsExactlyForItsDebt | src/net/impairments.cpp:88-103 | no datagram waits longer than the debt requires: it goes at once if no balance is negative, and otherwise the moment the worst of them is earned back |
| Prng.MixInjective | src/net/deterministic_prng.hpp:26-32 | the output function never maps two states to one word |
| Prng.OutputsDistinct | src/net/deterministic_prng.hpp:26-32 | 2^64 consecutive outputs from any state are distinct |
| Prng.EveryWordHasAState | src/net/deterministic_prng.hpp:26-32 | next_u64 is a permutation: each word is the next output of exactly one state |
| Prng.RejectionsBounded | src/net/deterministic_prng.hpp:50-62 | consecutive rejected outputs are at most the threshold in number |
| Prng.FirstAccepted | src/net/deterministic_prng.hpp:50-62 | from every state an output is accepted after at most threshold refusals |
| Prng.EveryResidueEquallyLikely | src/net/deterministic_prng.hpp:50-62 | rejection sampling is unbiased: each residue is accepted from exactly (2^64 - threshold) / limit of the 2^64 states |
| Prng.DeterministicPrng.NextU64 | src/net/deterministic_prng.hpp:26-32 | advances the counter once and returns its mix |
| Prng.DeterministicPrng.Bernoulli | src/net/deterministic_prng.hpp:42-48 | one draw is compared with p, and none is made when the outcome is certain |
| Prng.DeterministicPrng.UniformInRange | src/net/deterministic_prng.hpp:50-62 | terminates in every state with what `Uniform` draws: the value `UniformTakesFirstAccepted` describes |
| Likelihood.UniformTakesFirstAccepted | src/net/deterministic_prng.hpp:50-62 | the value lies in the range and is low plus the remainder of the first output not below the threshold, and the state is left behind that output |
| Likelihood.EveryValueEquallyLikely | src/net/deterministic_prng.hpp:50-62 | each value of the range is returned from exactly (2^64 - threshold) / limit of the states whose next output is accepted |
| Likelihood.TossLikelihood | src/net/deterministic_prng.hpp:35-48 | a toss hits from exactly a counted number of the 2^64 states |
| Likelihood.ChanceIsTheProbability | src/net/deterministic_prng.hpp:35-48 | and that count is the probability asked for, to within 2^-53 |
| PrngExample.FirstNumber | src/net/deterministic_prng.hpp:26-32 | the first output from seed 0 is SplitMix64's 0xE220A8397B1DCDAF |
| Observer.Observe | src/verify/packet_observer.cpp:37-154 | the single pass computes every report field as a fact about the whole trace: counts, distinct blocks, retransmissions, duplicates, wraparound, TIDs |
| Observer.DistinctWithinSent | src/verify/packet_observer.cpp:144-148 | the subtraction that gives the retransmissions never goes negative |
| Recording.ObserverFindsAll | src/net/impairment_proxy.cpp:113-166 | on a trace as the proxy records it, DATA going from server to client on a download and the other way on an upload, the observer finds every DATA of the source and every ACK of the sink, whatever became of them, and takes nothing else for one |
| Recording.FatesCounted | src/verify/packet_observer.cpp:62-74 | datagrams dropped, corrupted and injected are counted as they were |
| Recording.FreshTidVerdict | src/verify/packet_observer.cpp:76-93 | RFC 1350 section 4: a fresh transfer ID is reported if and only if the server took one and a request and an OACK or DATA of the server were seen, which an upload without options never shows |
| Recording.StrayReplyVerdict | src/net/impairment_proxy.cpp:314-338 | replies to strays are counted, and ERROR 5 is reported if and only if one of them was an ERROR 5 |
| SelfVerification.WireNumbersDistinct | src/verify/packet_observer.cpp:104-120 | up to 65536 consecutive blocks are told apart by their numbers |
| SelfVerification.ObserverCountsSends | src/verify/packet_observer.cpp:104-148 | on the recorded trace of every run of every sender, defects included, DATA sent, distinct blocks and retransmissions are the sender's own counts |
| SelfVerification.TerminatorSeenIffSent | src/verify/packet_observer.cpp:104-128 | on the recorded trace the short block is reported if and only if the final block was sent |
| SelfVerification.FinalBlockVerdict | src/verify/packet_observer.cpp:104-128 | an omitting sender of a non-empty exact multiple never shows the short block, at any point of any run, and any other that has completed always does |
| SelfVerification.AmplificationVerdict | src/verify/packet_observer.cpp:130-148 | without timeouts a retransmission is observed if and only if the sender has the duplicate-ACK defect and a duplicate reached it |
| SelfVerification.ObserverCountsAcks | src/verify/packet_observer.cpp:130-142 | the ACKs reported are those the receiver sent, the handshake's included, and up to block 65535 the duplicates are exactly its repetitions |
| SelfVerification.LastBlockReported | src/verify/packet_observer.cpp:104-118 | the final length reported is that of the highest block sent, and up to block 65535 the highest number is its number |
| SelfVerification.WraparoundVerdict | src/verify/packet_observer.cpp:117-124 | with windows of up to 65436 a wraparound is reported if and only if block 65536 was sent |
| SelfVerification.FalseWraparound | src/verify/packet_observer.cpp:117-124 | with larger ones it is also reported when a window that ends in block 65535 is sent again |
| Sha256.PaddingIsInjective | src/verify/sha256.cpp:108-123 | below 2^61 bytes no two messages pad to the same blocks (FIPS 180-4 section 5.1.1) |
| Sha256Standard.ChooseBits | src/verify/sha256.cpp:65 | FIPS 180-4 section 4.1.2: each bit of x chooses between the same bits of y and z |
| Sha256Standard.MajorityBits | src/verify/sha256.cpp:70 | a bit is set where at least two of the three are |
| Sha256Standard.RotateRightBits | src/verify/sha256.cpp:12-14 | section 3.2: a rotation moves every bit n places down, round the end of the word |
| Sha256Standard.BigSigma0Bits | src/verify/sha256.cpp:68-69 | bit i is the exclusive or of bits i + 2, i + 13 and i + 22 |
| Sha256Standard.BigSigma1Bits | src/verify/sha256.cpp:63-64 | of bits i + 6, i + 11 and i + 25 |
| Sha256Standard.SmallSigma0Bits | src/verify/sha256.cpp:50-52 | of bits i + 7, i + 18 and, below the top three, i + 3 |
| Sha256Standard.SmallSigma1Bits | src/verify/sha256.cpp:53-55 | of bits i + 17, i + 19 and, below the top ten, i + 10 |
| Sha256Standard.FirstPrimes | src/verify/sha256.cpp:16-17 | the list of primes begins with 2 and each entry is the next prime after the one before |
| Sha256Standard.RoundConstantsAreCubeRoots | src/verify/sha256.cpp:16-30 | section 4.2.2: the t-th round constant is the first 32 bits behind the point of the cube root of the t-th prime |
| Sha256Standard.InitialIsSquareRoots | src/verify/sha256.cpp:34-38 | section 5.3.3: the initial words are those of the square roots of the first eight primes |
| Sha256Standard.WordReadsBack | src/verify/sha256.cpp:125-130 | a word written as four bytes reads back |
| Sha256Standard.BytesReadBack | src/verify/sha256.cpp:43-48 | four bytes read as a word are written back |
| Sha256Standard.BigEndianIsPositional | src/verify/sha256.cpp:117-121 | section 5.1.1: the length is written in positional notation, in base 256 |
| Sha256Example.DigestOfAbc | src/verify/sha256.cpp:134-139 | the digest of "abc" is the published one |
| Hasher.Sha256Hasher.ProcessBlock | src/verify/sha256.cpp:41-90 | the schedule and round loops over words compute the compression of FIPS 180-4 section 6.2.2 |
| Hasher.Sha256Hasher.Update | src/verify/sha256.cpp:92-106 | whatever the split against block boundaries, the hasher holds exactly the message so far |
| Hasher.Sha256Hasher.Finalize | src/verify/sha256.cpp:108-132 | the padding loop stops and the digest is that of the padded message, block by block |
| Hasher.HashPieces | src/verify/sha256.cpp:92-139 | streaming equals one-shot for every way of cutting the message up |
| ContentOracle.HexIsInjective | src/verify/sha256.cpp:141-150 | fingerprints are equal if and only if digests are |
| ContentOracle.CompareBytes | src/verify/content_oracle.cpp:25-53 | Match if and only if the digests of delivered and (normalized) source agree; equal bytes always match; sizes and fingerprints are those of the two |
| ContentOracle.CompareFiles | src/verify/content_oracle.cpp:55-71 | a missing file on either side is reported as missing, and two files as their bytes are |
| JsonNumbers.ExactReadsBack | src/metrics/json_writer.cpp:112-119 | an integer below 2^53 is read back as itself |
| JsonNumbers.SixDigitsReadBack | src/metrics/json_writer.cpp:120-123 | any other finite number, whole or not, printed by %.6g in whichever layout, is read back as the double nearest to its six significant digits, or refused if those leave the range of std::stod |
| JsonNumbers.NumberReadsBack | src/metrics/json_writer.cpp:372-401 | every finite number is printed as a token that reads back as exactly that |
| JsonNumbers.PrintedInFullIff | src/metrics/json_writer.cpp:112-119 | integers below 2^53 in size are printed in full, and other whole numbers below 10^15, and nothing else is |
| JsonNumbers.ExponentShownIff | src/metrics/json_writer.cpp:120-123 | the rest shows an exponent if and only if its first digit, once rounded, stands below 10^-4 or above 10^5 |
| JsonNumbers.PrintedDigits | src/metrics/json_writer.cpp:120-123 | the digits printed begin and end with one that is not 0 |
| Doubles.SixDigitsSurvive | src/metrics/json_writer.cpp:120-123 | a decimal of at most six digits comes back from the double nearest to it |
| Doubles.SixDigitsSufficeIff | src/metrics/json_writer.cpp:120-123 | rounding a double to six digits and back changes nothing if and only if it is the double nearest to some six-digit decimal |
| JsonNumbers.KeptIff | src/metrics/json_writer.cpp:112-123 | a finite number keeps its value if and only if it is printed in full or is the double nearest to a six-digit decimal |
| JsonNumbers.IntactIff | src/metrics/json_writer.cpp:372-401 | it is read back as the very same JSON number if and only if it is an integer below 2^53, or such a double and not printed as an integer |
| JsonNumbers.WholeIsSixDigitIff | src/metrics/json_writer.cpp:112-123 | for whole numbers up to 10^19 that is having no digit beyond the sixth |
| WholeDoubles.DoubleAgrees | src/metrics/json_writer.cpp:23-29 | rounding whole numbers to doubles by integer arithmetic agrees with rounding reals |
| JsonNumbers.IntegerSurvivesIff | src/metrics/json_writer.cpp:23-29 | a 64-bit integer taken through a double survives if and only if it is below 2^53 or has no digit beyond the sixth |
| JsonRoundTrip.ReadsSerialized | src/metrics/json_writer.cpp:126-179 | from any tree's text followed by anything, the reader takes that tree and leaves the rest, or refuses it for a number out of range |
| JsonRoundTrip.ParsesSerialized | src/metrics/json_writer.cpp:181-185 | parse after serialize, compact or pretty, gives every tree back, its numbers as printed; it fails only on a number out of range |
| JsonRoundTrip.UnchangedIffIntact | src/metrics/json_writer.cpp:112-123 | a finite tree reads back unchanged if and only if each of its numbers is a small integer or a double of six digits |
| JsonRoundTrip.RoundTripIffIntact | src/metrics/json_writer.cpp:406-409 | parse after serialize is the identity on a finite tree if and only if that holds |
| JsonTruncation.ValueExtends | src/metrics/json_writer.cpp:218-236 | what the reader has read stays read when more text follows, save a number that reached the very end |
| JsonTruncation.CutObjectIsRefused | src/metrics/json_writer.cpp:238-269 | no proper prefix of a serialized object parses |
| JsonTruncation.CompactIsOneLine | src/metrics/json_writer.cpp:83-109 | compact text has no raw line break |
| JsonStrings.StringReadIff | src/metrics/json_writer.cpp:297-347 | RFC 8259 section 7: a string literal is read if and only if it is made of plain characters, short escapes and four-digit codes up to a quote, and stands for what they stand for, codes in UTF-8 |
| JsonStrings.EscapedIsShortest | src/metrics/json_writer.cpp:83-109 | what is written for a character is the one shortest piece that stands for it and can be printed |
| JsonGrammar.ReadsIffSpelled | src/metrics/json_writer.cpp:218-401 | RFC 8259: a value is read off the front of a text if and only if the text begins with a spelling of it |
| JsonGrammar.AcceptedIffSpelled | src/metrics/json_writer.cpp:196-202 | a document is accepted if and only if it is one spelled value with only space behind it, and read as what it means, a repeated key replacing its value |
| JsonCode.EscapeJsonString | src/metrics/json_writer.cpp:83-109 | the escaping loop writes the quoted form the reader undoes |
| JsonCode.SerializeInto | src/metrics/json_writer.cpp:126-179 | appends exactly the specified text to whatever was there |
| JsonCode.Parser.ParseStringBody | src/metrics/json_writer.cpp:297-347 | the cursor loop decodes the literal and stops behind its quote, or fails where the specification does |
| JsonCode.Parser.ParseValue | src/metrics/json_writer.cpp:218-236 | the recursive parser reads the specified value and moves the cursor behind it |
| JsonCode.Parser.ParseObject | src/metrics/json_writer.cpp:238-269 | the member loop reads the specified object, a repeated key replacing its value |
| JsonCode.Parser.ParseArray | src/metrics/json_writer.cpp:271-295 | the item loop reads the specified array |
| JsonCode.Parser.Parse | src/metrics/json_writer.cpp:196-202 | accepts a document if and only if one value and nothing but space follows |
| JsonCode.ParseDocument | src/metrics/json_writer.cpp:406-409 | computes the parse the round trip is proved for |
| MetricRecords.RecordToJson | src/metrics/metrics_store.cpp:39-62 | setting member after member builds the specified object; no key overwrites another |
| MetricRecords.SettingMember | src/metrics/json_writer.cpp:51-60 | after setting a member its key has that value, where it stood or else at the end, and every other key has what it had |
| MetricRecords.RecordReadsBack | src/metrics/metrics_store.cpp:64-97 | from_json of what was written is the record with its numbers as the text keeps them |
| MetricRecords.MissingMembersDefault | src/metrics/metrics_store.cpp:64-97 | what is missing from an object is left as a new record has it |
| MetricRecords.SeedSurvivesIff | src/metrics/metrics_store.cpp:51-82 | a seed reads back right if and only if its signed value is below 2^53 or has no digit beyond the sixth |
| MetricRecords.SomeSeedIsLost | src/metrics/metrics_store.cpp:51-82 | the seed 2^53 + 1 does not |
| MetricRecords.DoubleSurvivesIff | src/metrics/metrics_store.cpp:57-60 | any finite counter or intensity comes back with its value if and only if it is a whole number below 10^15 or the double nearest to a six-digit decimal |
| MetricRecords.SomeCounterIsLost | src/metrics/metrics_store.cpp:57-60 | 1024.53125 does not |
| MetricRecords.RecordSurvivesIff | src/metrics/metrics_store.cpp:39-97 | a finite record survives the store if and only if its seed and each of its numbers do |
| MetricsStore.CutStoreLoadsPrefix | src/metrics/metrics_store.cpp:135-161 | a store of any records cut at any character loads as the records whose object was written out, a prefix of those appended with every complete line, numbers as the text keeps them; only a record with a number out of range is passed over |
| MetricsStore.WholeStoreLoads | src/metrics/metrics_store.cpp:135-161 | uncut, it gives back everything appended in that way |
| MetricsStore.AllSurviveIff | src/metrics/metrics_store.cpp:135-161 | finite records are all given back as they were if and only if each of them survives |
| MetricsStore.JunkIsPassedOver | src/metrics/metrics_store.cpp:142-159 | a line that is no JSON, has no type or one the store does not know may stand anywhere in a file without changing what is loaded |
| MetricsStore.Store.Open | src/metrics/metrics_store.cpp:99-116 | leaves a file of one header line and an open store, or returns false with the records cleared and the store as open as before |
| MetricsStore.HeaderLine | src/metrics/metrics_store.cpp:107-112 | the header line is just type, format and implementation name, in that order |
| MetricsStore.Store.Append | src/metrics/metrics_store.cpp:118-129 | keeps the record, and adds exactly its line to the file when the store and its stream are open |
| MetricsStore.Store.LoadFile | src/metrics/metrics_store.cpp:135-161 | the line loop loads what the specification says, passing over empty and unreadable lines; a file that cannot be opened changes nothing |
| MetricsStore.CrashedStoreLoadsPrefix | src/metrics/metrics_store.cpp:118-161 | whatever was written to an open store, a crash at any character leaves a loadable prefix of it, and finite records come back as they were if and only if each of them survives |
| Ends.SenderProjects | adapters/reference/tftp_reference_engine.cpp:170-267 | what the sender does in a joint run is its own loop over what its socket delivered |
| Ends.ReceiverProjects | adapters/reference/tftp_reference_engine.cpp:276-404 | the same for the receiver |
| Ends.EndsAreSafe | adapters/reference/tftp_reference_engine.cpp:170-404 | both loops run to their ends over any schedule: the sink is a prefix of the payload, and all of it if either succeeds; and the sender succeeds only if the receiver does when its last block ends the receiver |
| Ends.ReportsAreSafe | adapters/reference/tftp_reference_engine.cpp:264-266 | an outcome of either loop that reports success means that the payload was delivered, and tells its size; and the sender's means the receiver's when its last block ends the receiver |
| Ends.FinalsAreReached | adapters/reference/tftp_reference_engine.cpp:170-404 | either loop ends in success exactly if it has succeeded in the joint run, and with the sink it has there |
| Ends.SenderMayBeAlone | adapters/reference/tftp_reference_engine.cpp:182-187 | if its last block does not end the receiver, on some schedule the sender succeeds and the receiver gives up |
| EndToEnd.SoundIffReliable | adapters/reference/tftp_reference_engine.cpp:658-680 | a correct receiver takes no full block for the last on any schedule if and only if the OACK was heard, or granted no more than the default block size, or the payload fits one default block |
| Ends.PrimedIsFirstEvent | adapters/reference/tftp_reference_engine.cpp:567-581 | the DATA that answered a request without options counts as the receiver's first event |
| EndToEnd.NegotiationCrossesTheWire | adapters/reference/tftp_reference_engine.cpp:518-566 | request and OACK are parsed with exactly the options that were listed and granted |
| EndToEnd.PipelineIsTheNetwork | src/net/impairments.cpp:106-169 | in any state of the pipeline, whatever it makes of a DATA or ACK under opcode corruption is an event of the network model, so joint safety holds behind it as far as DATA and ACK go |
| EndToEnd.SuccessMeansMatch | src/verify/content_oracle.cpp:25-53 | from request to verdict: equal legal defaults, any options, any file, octet or netascii, an OACK heard or not, any schedule: on sound terms the receiving end's success means a saved file and the verdict Match, without it there is no file, and the sending end's success means the receiving end's if the last block sent ends it |
| EndToEnd.SoundBelievableIff | adapters/reference/tftp_reference_engine.cpp:578-597 | on sound terms, success at either end means on every schedule that the file saved is the one wanted, if and only if the last block sent ends the receiver |
| EndToEnd.BelievableIff | adapters/reference/tftp_reference_engine.cpp:923-968 | for every session with a correct receiver and at most 65535 blocks: if and only if the terms are reliable and the last block sent ends the receiver, or all that the first block lacks is the NUL of a final CR |
| EndToEnd.PlainDownloadSafeIff | adapters/reference/tftp_reference_engine.cpp:567-581 | a download without options is safe on every schedule if and only if it has at most 65536 blocks |
| EndToEnd.SafeFromOackDamageIff | adapters/reference/tftp_reference_engine.cpp:933-941 | on an upload with granted options a damaged OACK becomes an ACK of block 25196, 29801, 29811 or 30569, and every schedule is safe from it if and only if the transfer has fewer blocks |

## Left out

- Sockets, `select`, threads, clocks and the proxy's relay loop and scheduled-send list: a socket is a script of events, the network a schedule of moves, and arrival times are parameters; of the proxy only the pipeline and the records it makes are modelled.
- The handshake loops of `read_file`, `write_file` and `handle_request` (adapters/reference/tftp_reference_engine.cpp:506-686 and 850-970): only the negotiation they carry and the loops they start are modelled; request retransmission and file access are not.
- `resolve_served_path` and file reading and writing: files are byte sequences, no file is at the destination before, a file whose receiver succeeded is written, and whether a store's stream opens is a parameter of each call.
- A write to the store that fails halfway while the process lives on: the line it tears would be joined to the next; only tearing by a crash is modelled.
- The 32-bit wrap of absolute block indices and of counters: indices are unbounded, so transfers of about 2^32 blocks or more are not modelled.
- A block size of 0, which only a server outside this repository could put into an OACK; the source divides by it.
- An exception escaping from `std::stoul` in `apply_oack_to_client` ends the model's function with an outcome of its own; what the process does then is not modelled.
- Damage to requests, which reach the listening socket and not a transfer.
- Delivery does not imply success at the sender, since a lost final ACK can outlast the dally; only the other direction is stated, and nothing is claimed about payload or block-number corruption, which TFTP cannot detect.
- Limits.SafeIffNoReuse: supposes equal windows and equal block sizes; on other links only the sufficient direction is proved (Network.JointSafety).
- Infinities and NaN, which JSON cannot hold, and the sign of a zero.
- `std::stod` at the very edge of the normal range: a decimal below the least normal double is refused, as glibc does, even where rounding would lift it to that double; other C libraries may accept subnormal values.
- Doubles of 2^63 or more as integers: the cast to `long long` is taken as exact.
- Counters are a sequence with distinct names; the map's sorted order is not modelled.
- `bernoulli` compares exact reals, and the token bucket runs in exact reals; floating-point rounding in either is not modelled.
- Observer.Observe: leaves out `narrative` and the per-block send counts, which no verdict uses.
- FaultRates.BurstLossRate: counts states where the channel's move before it is certain; otherwise two successive outputs of one generator decide together, and no count of theirs is claimed.
- The layout of pretty-printed JSON beyond its reading back: the store writes the compact form.
- SHA-256 collision resistance: the oracle needs only that equal bytes have equal digests.
- Subprocess and other adapters, the test registry, runner, fixtures, scorecard and the HTML and SVG reports: wiring and formatting with easy bounds.
