# Verification model of the pcap analyzer's streaming core

`pcap-analyzer` reads captured packets, tracks flows, reassembles each TCP direction into a
byte stream and decodes DNS and HTTP messages from it while the stream is still growing. This
project models those algorithms in Dafny and proves what they promise. Check it with
`dafny verify dfyconfig.toml`.

## How the model is laid out

Code that updates state in place is modelled by classes and loops, each proved equal to a
function of the old state or of the input. The properties are then proved about those
functions, over all inputs and whole runs.

| files | part of the program | main results |
|---|---|---|
| `TcpReassembler`, `TcpStream`, `TcpMachine` | the reassembler object, and its state as a value | every method is the value function |
| `TcpOrder` | the sorted out-of-order store | order kept over every run, iff one event never occurs |
| `TcpSafety`, `TcpDelivery` | segments of one sent stream | exactly which bytes are handed up; order of delivery is irrelevant |
| `TcpConnection`, `TcpCompletion`, `TcpConversation` | FINs, resets and both endpoints | hand-up is the sent stream over every run, and exactly how much of it; conversations end properly |
| `TcpQueue` | read buffer with lazy compaction | a plain queue; amortised cost |
| `HttpText`, `HttpParser`, `HttpStability`, `HttpRoundTrip` | HTTP/1.x heads and chunked bodies | final verdicts, exact resumption, round trips |
| `HttpGrammar` | the same parser, told by what is written | exactly which octets are a line, a field, a head, a chunked body, and what each means |
| `HttpResync`, `HttpPoll`, `AppDecoder` | the polling decoder, as a value and as an object | the object is the value function; resynchronisation finds the first start |
| `HttpResume`, `HttpFragments`, `HttpRepoll`, `HttpLimit` | what the decoder remembers between polls | fragmentation independence, with its conditions on the queue and on size |
| `HttpOvertake`, `HttpLive`, `HttpAccounting` | what each turn consumes and counts, while the other direction queues flags | accounting over every run, and exactly which flags break it |
| `HttpPipeline`, `HttpExchange`, `HttpDuplex` | streams of messages, both directions of a connection | well-formed messages are decoded into themselves, however cut |
| `HttpVerdicts` | one round of the polling decoder, told by what is written | when more bytes are waited for, when a message is taken and when the front is given up |
| `HttpUnframed` | where bodies end | written lengths, responses without a body, responses that last until the connection closes |
| `DnsName`, `DnsMessage`, `DnsPoll` | DNS names, messages, DNS over TCP | names mean their RFC 1035 expansion; round trips; exact framing |
| `DnsCompression`, `DnsCompressedMessage` | compressed names, told by their octets | every chain of pointers is read back within exact limits; so is every message made of them |
| `EndToEnd`, `ConnectionReader`, `ConnectionOffer` | segments or packets in, messages out | any delivery order decodes to the messages sent, through the whole connection; when the decoder is offered what is handed up |
| `Checksum` | the Internet checksum | the unrolled byte-swapped loop is the RFC 1071 sum |
| `FlowKey`, `FlowTable`, `FlowSplit` | flow keys and the flow table | the greedy split of each key's packets; conservation of bytes |
| `Ipv6Text`, `Ipv6Parser`, `Ipv6Printer` | IPv6 addresses as text | the exact grammar; printing and parsing undo each other |
| `Bytes`, `SeqNumber`, `Sorted` | shared vocabulary | 32-bit distances, bisection |

## Where the code and its description differ

- A FIN that is taken while a segment is stored exactly at its place leaves the out-of-order
  store unsorted. `TcpOrder.RunKeepsOrder` proves that this is the only way, told from the state
  before each call; `TcpOrder.OvertakingNeedsAnEarlierFin` that it takes an earlier FIN, taken
  right in front of a stored segment; `TcpConnection.FinCanOvertake` gives a run (a reset and an
  acknowledgement reopen the state, and the same FIN comes again).
- On such a run an `ingest` can leave a stored segment at distance zero while the store is still
  sorted (`TcpConnection.IngestCanLeaveZero`); `TcpOrder.IngestsAreExact` and
  `TcpOrder.RunKeepsAhead` say exactly when all distances are above zero, after every `ingest`
  and after every call.
- A SYN that carries data is ingested at its own number plus one when it seeds the reassembler,
  but at its own number when repeated later (`TcpConnection.RepeatedSynWithDataIsMisplaced`).
  `TcpConnection.RepeatedSynHarmsExactly` proves for every reachable state when that does harm:
  when the repeated bytes reach more than one place past the position and differ from their
  predecessors. `TcpConnection.RunIsFaithful` admits every other repeated SYN.
- A response whose body is not complete takes a flag from the peer's queue of pending requests
  again at each poll. While no flag is queued in between, the way a stream is cut cannot matter
  if and only if every waiting flag but the last belongs to a HEAD
  (`HttpRepoll.CutsAgreeExactly`, at any moment at which nothing is half read). While the queue
  grows, `HttpLive.GrowingQueueCutsAgree` proves the same of the cuts between the flags, as long
  as each new flag keeps the queue like that and none comes set for a chunked response that is
  half read and has no flag left; `HttpLive.AskedStaysSteady` says that this is the exact
  condition on a flag. A request that is read before the response to the one before it is
  complete loses its flag to that response (`HttpLive.UnfinishedResponseTakesTheNextFlag`).
- Such a repeated poll can also end a response at its head after part of its chunked body has
  been looked at, and leave the chunk prefix to the next message, whose body is then resumed in
  the wrong place or beyond the buffer (`HttpOvertake.ResumesOutside`,
  `HttpAccounting.OvertakingMisframes`). With a fixed queue this can happen if and only if a set
  flag waits behind an unset one (`HttpOvertake.OvertakingExactly`). With a queue that grows it
  takes no more than one flag at a time: `HttpDuplex.OneFlagIsEnough` gives a GET, part of its
  response and a HEAD. `HttpLive.LiveStaysInStep` proves exactly which flags, queued when, rule
  it out.
- A message that is polled by itself in two parts is decoded as if it had arrived at once if and only if
  the first part is at most 8 MiB (`HttpLimit.CutMattersAboveLimit`); a larger part of a chunked
  message is given up, and of another message its body is skipped.
- The comment at `include/net/protocols/dns.h:41` speaks of a cap of 255 octets including
  length octets. The code does not count the root octet, so names of up to 256 octets on the
  wire are accepted (`DnsName.EncodedNameIsReadBack` states the exact limit).
- The IPv6 printer writes all four digits of every group, so its text is not the canonical form
  of section 4.1 of RFC 5952; only its choice of the `::` follows section 4.2.
- Several `Transfer-Encoding` fields are accepted when the last one is just `chunked`; a single
  field such as `gzip, chunked` is refused. The model follows the code.

## Model

| member | source | states |
|---|---|---|
| TcpReassembler.TcpReassembler.OnSent | src/net/flow/tcp_reassembler.cpp:31-78 | a packet from this endpoint takes the whole object from one state value to the next, seeding and every connection state included |
| TcpReassembler.TcpReassembler.OnReceived | src/net/flow/tcp_reassembler.cpp:80-138 | a packet from the other endpoint changes the connection state only |
| TcpReassembler.TcpReassembler.OnData | src/net/flow/tcp_reassembler.cpp:140-151 | ingest, note the FIN, take it when it is due by the signed comparison |
| TcpReassembler.TcpReassembler.Ingest | src/net/flow/tcp_reassembler.cpp:153-195 | the whole new stream state, in both payload modes |
| TcpReassembler.TcpReassembler.StashSegment | src/net/flow/tcp_reassembler.cpp:171-186 | a segment ahead of the position is replaced, inserted or refused; nothing else changes |
| TcpReassembler.TcpReassembler.FindSlot | src/net/flow/tcp_reassembler.cpp:171-172 | the bisection loop finds the slot of the specification |
| TcpReassembler.TcpReassembler.AbsorbSegment | src/net/flow/tcp_reassembler.cpp:200-208 | one stored segment behind the position is handed up beyond its covered part |
| TcpReassembler.TcpReassembler.DrainStore | src/net/flow/tcp_reassembler.cpp:197-214 | the loop and the final erase are the recursive drain |
| TcpReassembler.TcpReassembler.Consume | src/net/flow/tcp_reassembler.cpp:224-234 | reading drops exactly that many bytes, compaction included |
| TcpOrder.SlotIsExact | src/net/flow/tcp_reassembler.cpp:171-173 | on a sorted store the search finds the segment with this number if and only if there is one, else its sorted place |
| TcpOrder.StashKeepsOrder | src/net/flow/tcp_reassembler.cpp:170-186 | storing keeps the distances strictly ascending and below 2^31 |
| TcpOrder.DrainRestoresOrder | src/net/flow/tcp_reassembler.cpp:197-214 | after draining, only segments strictly ahead of the moved base are left, still sorted |
| TcpOrder.BufferKeepsOrder | src/net/flow/tcp_reassembler.cpp:165-194 | one ingest of any segment at all keeps the store sorted around its moving base, the byte count exact and within the cap |
| TcpOrder.AheadAfterIngest | src/net/flow/tcp_reassembler.cpp:165-194 | after an ingest all distances are above zero if and only if they were before or the segment reached the position |
| TcpOrder.IngestsAreExact | src/net/flow/tcp_reassembler.cpp:140-195 | over every run that keeps the order, all distances are above zero after each ingest if and only if no ingest misses a segment stored at the position |
| TcpOrder.StepKeepsAhead | src/net/flow/tcp_reassembler.cpp:31-151 | one call keeps all distances above zero if and only if it takes no FIN right in front of a stored segment |
| TcpOrder.RunKeepsAhead | src/net/flow/tcp_reassembler.cpp:31-234 | over every run from a fresh object all distances are above zero after each call if and only if that never happens |
| TcpOrder.OvertakingNeedsAnEarlierFin | src/net/flow/tcp_reassembler.cpp:146-150 | the order can break only after an earlier FIN was taken right in front of a stored segment |
| TcpOrder.StepPastFin | src/net/flow/tcp_reassembler.cpp:146-149 | taking a FIN keeps the order if and only if nothing is stored exactly at its place |
| TcpOrder.StepKeepsOrder | src/net/flow/tcp_reassembler.cpp:31-151 | one call keeps the invariant if and only if it takes no FIN over a segment stored at its place, told from the state before the call, with nothing assumed about the traffic |
| TcpOrder.RunKeepsOrder | src/net/flow/tcp_reassembler.cpp:31-234 | over every run from a fresh object the invariant holds throughout if and only if that never happens |
| TcpSafety.AbsorbDelivers | src/net/flow/tcp_reassembler.cpp:200-209 | a drain step hands up exactly the uncovered tail of the sent stream and forgets no held byte |
| TcpSafety.DrainDelivers | src/net/flow/tcp_reassembler.cpp:197-214 | draining hands up consecutive bytes of the sent stream and forgets none |
| TcpSafety.StashDelivers | src/net/flow/tcp_reassembler.cpp:170-186 | storing adds exactly the bytes of the segment to those held, unless it is refused |
| TcpSafety.BufferDelivers | src/net/flow/tcp_reassembler.cpp:153-214 | one ingest of a slice: handed up is the stream from the old to the new position; held is what was held and the slice, across wrap-around |
| TcpDelivery.ReassemblyIsExact | src/net/flow/tcp_reassembler.cpp:153-214 | after any run of slices (any order, repeats, overlaps, refusals, positions past 2^32) the bytes handed up are the stream up to the first byte not taken, and the sequence number is the wrapped position |
| TcpDelivery.PositionIsFirstGap | src/net/flow/tcp_reassembler.cpp:153-214 | with no refusal the position is the first byte that no segment carries |
| TcpDelivery.ReassemblyCompletes | src/net/flow/tcp_reassembler.cpp:165-214 | everything is handed up if and only if every byte was carried; then the store is empty and its byte count 0 |
| TcpDelivery.CompleteLeavesNothing | src/net/flow/tcp_reassembler.cpp:165-214 | whenever everything is handed up the store is empty, refusals or not |
| TcpDelivery.ReassemblyIgnoresOrder | src/net/flow/tcp_reassembler.cpp:153-214 | two runs that carry the same bytes hand up the same bytes |
| TcpDelivery.SmallRunsAreNeverRefused | src/net/flow/tcp_reassembler.cpp:175-180 | a run that carries no more than the cap never has a segment refused |
| TcpDelivery.CountStep | src/net/flow/tcp_reassembler.cpp:154-164 | while only the position is tracked, a segment that reaches it without a gap moves it to that segment's end, and any other leaves it |
| TcpDelivery.CountingUnderApproximates | src/net/flow/tcp_reassembler.cpp:154-164 | tracking the position alone never runs ahead of buffering and agrees with it on in-order delivery |
| TcpMachine.DeliveredGrows | src/net/flow/tcp_reassembler.cpp:153-214 | bytes handed up are never changed or taken back, for any segment in either mode |
| TcpConnection.FinDueAtTheEnd | src/net/flow/tcp_reassembler.cpp:146-150 | the signed comparison holds exactly when every byte before the FIN is assembled |
| TcpConnection.FinFollowsEverything | src/net/flow/tcp_reassembler.cpp:146-150 | when the FIN is taken nothing is left in the store |
| TcpConnection.RunIsFaithful | src/net/flow/tcp_reassembler.cpp:31-234 | over every run of genuine traffic, harmless repeated SYNs with data included, with resets, received packets and reads mixed in: the history is the sent stream from the seeding point, the store is sorted, and a closing state means all of it was handed up |
| TcpConnection.RepeatedSynHarmsExactly | src/net/flow/tcp_reassembler.cpp:67-70 | in every tracked state, stored segments and half-closed states included, a repeated SYN with data keeps the history a part of the sent stream if and only if it reaches at most one byte past the position or the bytes it adds equal those one place earlier |
| TcpConnection.RepeatedSynAfterRun | src/net/flow/tcp_reassembler.cpp:31-234 | the same after any genuine run from a fresh object |
| TcpConnection.RepeatedSynWithDataIsMisplaced | src/net/flow/tcp_reassembler.cpp:37-41 | a concrete run in which a repeated SYN with data corrupts the stream |
| TcpCompletion.ConnectionIsExact | src/net/flow/tcp_reassembler.cpp:31-234 | over every genuine run, through seeding, connection states, repeats, refusals, resets and reads: the history ends at the first byte no accepted packet brought, it is everything if and only if everything was brought, and the FIN has been taken if and only if moreover a FIN was carried; then the store is empty |
| TcpConnection.FinCanOvertake | src/net/flow/tcp_reassembler.cpp:140-151 | a concrete run that breaks the store's order through a second FIN |
| TcpConnection.IngestCanLeaveZero | src/net/flow/tcp_reassembler.cpp:170-186 | a concrete sorted state in which an ingest leaves a segment at distance zero |
| TcpConversation.DeliverPacket | src/net/decode/decoder.cpp:35-42 | a packet drives the sender's object, then the receiver's |
| TcpConversation.HandshakeEstablishes | src/net/flow/tcp_reassembler.cpp:36-104 | SYN, SYN with ACK and ACK bring both endpoints to Established with agreed numbers, for all initial numbers |
| TcpConversation.TalkingAppends | src/net/flow/tcp_reassembler.cpp:67-70 | any interleaving of data both ways appends to each side exactly what it said |
| TcpConversation.TailAppends | src/net/flow/tcp_reassembler.cpp:110-122 | between the two FINs only the other side's bytes are added, and the first FIN counts as acknowledged exactly from the first segment that does not lag |
| TcpConversation.ConversationEndsProperly | src/net/decode/decoder.cpp:35-42 | every in-order conversation, acknowledgements lagging or not: each side's history is what it said, the last closer ends in Closed, and the first in TimeWait if and only if its FIN was acknowledged by then, else in Closing |
| TcpConversation.CrossedFinsEnd | src/net/flow/tcp_reassembler.cpp:123-127 | after a conversation whose FINs crossed, the first closer leaves Closing for TimeWait exactly at a segment that does not lag |
| TcpConversation.SimultaneousOpen | src/net/flow/tcp_reassembler.cpp:90-104 | a SYN each way and then an acknowledgement each way, in either order, bring both endpoints to Established with agreed numbers |
| TcpConversation.ClosedWithTheHandshake | src/net/flow/tcp_reassembler.cpp:100-104 | the opener closes with the packet that completes the handshake: it waits for its FIN, the answerer closes last, and the packet's bytes are handed up |
| TcpConversation.JoinedInTheMiddle | src/net/flow/tcp_reassembler.cpp:42-49 | a capture that begins in the middle: the first packet of each side hands up all it carries, and a FIN in the very first makes the other side the last closer |
| TcpConversation.ResetEnds | src/net/flow/tcp_reassembler.cpp:31-35 | a RST of either side changes the connection state to Closed and nothing else, and whatever is sent afterwards changes nothing; before the first packet it does not seed |
| TcpQueue.ConsumeDrops | src/net/flow/tcp_reassembler.cpp:216-234 | reading commutes with compaction: the queue loses its front and the history nothing |
| TcpQueue.QueueIsPlain | src/net/flow/tcp_reassembler.cpp:216-234 | over every run what `peek` shows is a plain queue of the bytes handed up and not yet read |
| TcpQueue.CompactsExactly | src/net/flow/tcp_reassembler.cpp:224-234 | a read moves the unread bytes to the front if and only if more than 4096 bytes lie before them and more than they are, and loses none |
| TcpQueue.CompactionIsAmortized | src/net/flow/tcp_reassembler.cpp:224-234 | over every run dead space stays bounded and the bytes moved never exceed the bytes read |
| SeqNumber.DeltaIsDifference | src/net/flow/tcp_reassembler.cpp:201-203 | within 2^31 the signed difference of wrapped numbers is the true one |
| Sorted.LowerBoundSplits | src/net/flow/tcp_reassembler.cpp:172 | the bisection of `std::lower_bound` finds the partition point |
| Checksum.Fold | src/net/util/checksum.cpp:31 | the folding loop ends with the 16-bit one's-complement value of the sum |
| Checksum.SumLittleEndian | src/net/util/checksum.cpp:11-30 | the two unrolled loops add up the little-endian words without overflow |
| Checksum.VerifyChecksum | src/net/util/checksum.cpp:10-45 | true if and only if the big-endian word sum with the pseudo-header is positive and divisible by 65535, if and only if the RFC 1071 sum is all ones |
| Checksum.SwapIsTimes256 | include/net/util/endian.h:13-15 | swapping the bytes multiplies by 256 in one's complement |
| Checksum.LittleIsSwappedBig | src/net/util/checksum.cpp:6-9 | the little-endian sum is the byte-swapped big-endian sum, as the code's comment claims |
| Checksum.OnesSumIsOnesValue | src/net/util/checksum.cpp:41-44 | adding with end-around carry word by word equals reducing the integer sum once |
| Checksum.ComplementIsAccepted | src/net/util/checksum.cpp:10-45 | a checksum field is accepted if and only if it is the sender's complement or the other zero |
| Checksum.CorruptByteIsRejected | src/net/util/checksum.cpp:10-45 | changing any one byte of an accepted buffer is noticed |
| DnsName.ParseName | src/net/protocols/dns.cpp:13-49 | the cursor loop ends on every input, reads only inside the message and gives the result of the specification |
| DnsName.NameMeansItsExpansion | src/net/protocols/dns.cpp:13-49 | it succeeds if and only if the expansion of section 4.1.4 of RFC 1035 exists within the limits (jumps, octets, decreasing targets), and returns its labels joined by dots and the position after it |
| DnsName.SpellingIsUnique | src/net/protocols/dns.cpp:21-47 | a message says at most one name at each position |
| DnsName.NameMovesForward | src/net/protocols/dns.cpp:23-29 | a parsed name ends after its start and inside the message |
| DnsName.EncodedNameIsReadBack | src/net/protocols/dns.cpp:13-49 | an uncompressed name is read back whole if its wire form has at most 256 octets, and refused otherwise |
| DnsName.DottedIsJoined | src/net/protocols/dns.cpp:44-45 | the name built label by label is the labels with one dot between any two |
| DnsCompression.PointerIsFollowed | src/net/protocols/dns.cpp:26-36 | labels and the octets `0xC0 + t / 256`, `t % 256` are read as those labels and the name that stands at t, wherever both stand, and end two octets behind the pointer |
| DnsCompression.ChainIsReadBack | src/net/protocols/dns.cpp:13-49 | a name written in any number of links, wherever they stand, is read if and only if it has at most ten pointers, they point back and its octets are at most 255, and then as the labels of all links |
| DnsCompression.ReservedIsRefused | src/net/protocols/dns.cpp:37 | an octet from 64 to 191 where a label should start is malformed |
| DnsMessage.ParseQuestion | src/net/protocols/dns.cpp:51-60 | name, type and class, and where the next entry starts |
| DnsMessage.ParseQuestions | src/net/protocols/dns.cpp:97-100 | the counted loop reads the questions in order or stops at the first error |
| DnsMessage.ParseRecord | src/net/protocols/dns.cpp:62-76 | name, fixed fields and exactly the declared data |
| DnsMessage.ParseRecords | src/net/protocols/dns.cpp:101-112 | the counted loop reads the records in order or stops at the first error |
| DnsMessage.Parse | src/net/protocols/dns.cpp:80-114 | the four sections behind the early size check |
| DnsMessage.QuestionsTakeSpace | src/net/protocols/dns.cpp:93-100 | n questions take at least five bytes each |
| DnsMessage.RecordsTakeSpace | src/net/protocols/dns.cpp:93-112 | n records take at least eleven bytes each |
| DnsMessage.SectionsMatchCounts | src/net/protocols/dns.cpp:97-113 | an accepted message has exactly the declared entries and at least the bytes the early check asks for |
| DnsMessage.EarlyCheckIsSound | src/net/protocols/dns.cpp:93-95 | the early check changes no outcome |
| DnsMessage.TooShortIsRefused | src/net/protocols/dns.cpp:81-95 | a message below twelve octets, or below five for each question and eleven for each record behind them, is refused as too short |
| DnsMessage.MessageIsReadBack | src/net/protocols/dns.cpp:80-114 | every well-formed uncompressed message is accepted and read back whole |
| DnsCompressedMessage.CompressedMessageIsReadBack | src/net/protocols/dns.cpp:80-114 | every message in whose octets a header and four sections stand, names compressed in any way within the limits, is accepted and read as exactly them |
| DnsPoll.PollExtends | src/net/decode/app_decoder.cpp:77-93 | polling, receiving and polling again is polling once |
| DnsPoll.FragmentationDoesNotMatter | src/net/decode/app_decoder.cpp:77-93 | any cut of the stream gives the same messages, failures and leftover |
| DnsPoll.FramesAreSplit | src/net/decode/app_decoder.cpp:78-92 | framed strings are taken by exactly their declared length; bad ones are one failure each and disturb nothing |
| HttpText.ParseDecimal | src/net/protocols/http.cpp:53-65 | the digit loop with its overflow guard accepts exactly the decimal numbers that fit 64 bits |
| HttpText.HexReadBack | src/net/protocols/http.cpp:67-79 | a size written in hexadecimal is read back |
| HttpText.DecimalsAreNumbers | src/net/protocols/http.cpp:53-65 | what is accepted as a decimal with value n is exactly n written in base ten behind any number of zeros, for n below 2^64 |
| HttpText.HexesAreNumbers | src/net/protocols/http.cpp:74-77 | what is accepted as hexadecimal with value n is exactly n written in base sixteen, in either case, behind any number of zeros, for n below 2^64 |
| HttpText.EqualsIgnoresOnlyCase | src/net/util/text.cpp:9-17 | two names are equal exactly if they have the same octets up to the case of ASCII letters |
| HttpText.TokenCharsByCode | src/net/protocols/http.cpp:24-35 | the token characters of section 5.6.2 of RFC 9110, by their codes |
| HttpGrammar.LineMeans | src/net/protocols/http.cpp:14-22 | a line and its rest are found if and only if the buffer is a line without carriage return, CR, LF and that rest |
| HttpGrammar.TrimMeans | src/net/protocols/http.cpp:45-51 | trimming gives v if and only if v begins and ends with no blank and stands between blanks |
| HttpGrammar.FieldMeans | src/net/protocols/http.cpp:128-141 | a field line is accepted as a field if and only if it is the name, a colon, and the value between blanks |
| HttpGrammar.StartLineMeans | src/net/protocols/http.cpp:81-121 | a start line is accepted as a head if and only if it is a request line or a status line that says it |
| HttpGrammar.FramingMeans | src/net/protocols/http.cpp:145-178 | chunked, a length, or nothing, each if and only if the fields say so, names and numbers by their octets; everything else is malformed |
| HttpGrammar.SizeMeans | src/net/protocols/http.cpp:67-79 | a chunk size line says n if and only if it is n in hexadecimal, blanks, and perhaps an extension |
| HttpGrammar.FieldsMean | src/net/protocols/http.cpp:123-143 | field lines are read as a list with a rest if and only if they are written one behind the other, an empty line, and that rest |
| HttpGrammar.HeadMeans | src/net/protocols/http.cpp:182-195 | a buffer is read as a head with a rest if and only if it is that start line, that block of fields and that rest, the framing as the fields say |
| HttpGrammar.ChunkMeans | src/net/protocols/http.cpp:212-227 | a chunk is read with its data if and only if its size line, the data and a line end stand there |
| HttpGrammar.ChunkedBodyMeans | src/net/protocols/http.cpp:197-233 | a body is decoded to data with a rest if and only if it is chunks of that data, a last chunk, a trailer and that rest |
| HttpVerdicts.FieldsOpenMeans | src/net/protocols/http.cpp:123-143 | more bytes are asked for in field lines if and only if they are acceptable lines and then one that has not ended |
| HttpVerdicts.HeadOpenMeans | src/net/protocols/http.cpp:182-195 | the same for heads: everything else that is no head is refused at once |
| HttpVerdicts.ChunkOpenMeans | src/net/protocols/http.cpp:212-227 | the same for one chunk: its size line, its data or the line end behind them has not ended |
| HttpVerdicts.BodyOpenMeans | src/net/protocols/http.cpp:197-233 | the same for a chunked body with its trailer |
| HttpVerdicts.WithoutHead | src/net/decode/app_decoder.cpp:108-125 | with no head at the front, the decoder waits if and only if the head has not ended and at most 32768 bytes have arrived, else it gives the front up |
| HttpVerdicts.ChunkedTurn | src/net/decode/app_decoder.cpp:137-149 | behind a head that announces chunks: a body that is there is taken with its trailer, one that has not ended waits up to 8 MiB, any other is given up |
| HttpVerdicts.SizedTurn | src/net/decode/app_decoder.cpp:150-174 | behind a head that announces a length: taken, waited for up to 8 MiB, or recorded and passed over, each exactly when |
| HttpVerdicts.BodilessTurn | src/net/decode/app_decoder.cpp:127-158 | a response that never has a body, one that answers a HEAD and a request that announces none end at their head; any other response without framing lasts until close |
| HttpParser.ParseFields | src/net/protocols/http.cpp:123-143 | the field lines up to the empty line, or the first error |
| HttpParser.ParseFraming | src/net/protocols/http.cpp:145-178 | the one-pass loop decides as the declarative framing rule: never both kinds, last coding chunked, equal lengths |
| HttpParser.Parse | src/net/protocols/http.cpp:182-195 | start line, fields and framing, with the rest of the buffer |
| HttpParser.ParseChunk | src/net/protocols/http.cpp:212-227 | one chunk, the last chunk, or the verdict at this boundary |
| HttpParser.ParseChunkedBody | src/net/protocols/http.cpp:197-233 | the decoded body and what follows, or the verdict and the whole-chunk prefix |
| HttpStability.HeadExtends | src/net/protocols/http.cpp:182-195 | any verdict on a head other than lack of bytes is unchanged by appended bytes |
| HttpStability.BodyExtends | src/net/protocols/http.cpp:197-233 | the same for a chunked body, with its data and its end |
| HttpStability.PrefixIsBoundary | src/net/protocols/http.cpp:205-227 | the reported prefix is a chunk boundary |
| HttpStability.ResumingIsExact | src/net/protocols/http.cpp:197-233 | parsing on from the reported prefix gives the verdict and the end of parsing from the first byte |
| HttpStability.LineReadBack | src/net/protocols/http.cpp:14-22 | a line without a carriage return is read back |
| HttpStability.ChunksReadBack | src/net/protocols/http.cpp:211-233 | every list of chunks is decoded to its concatenation and nothing behind it is touched |
| HttpRoundTrip.FieldReadBack | src/net/protocols/http.cpp:128-141 | a well-formed field line is read back |
| HttpRoundTrip.RequestLineReadBack | src/net/protocols/http.cpp:109-120 | a request line is read back |
| HttpRoundTrip.StatusLineReadBack | src/net/protocols/http.cpp:100-120 | a status line is read back |
| HttpRoundTrip.HeadIsReadBack | src/net/protocols/http.cpp:182-195 | every well-formed head is read back as it was, framing included |
| HttpResync.FindHttpResync | src/net/decode/app_decoder.cpp:10-26 | the search loop finds the first marked line end at or after its start |
| HttpResync.MatchMarker | src/net/decode/app_decoder.cpp:21-23 | the marker loop tells whether a message may start here |
| HttpResync.StartsByCode | src/net/decode/app_decoder.cpp:11-15 | a message may start exactly with one of eleven strings, given octet by octet |
| HttpResync.ResyncMeans | src/net/decode/app_decoder.cpp:10-26 | the search gives k if and only if k is the first place behind its start with CR and LF before it and a marker at it; nothing if and only if there is none |
| HttpResync.ScanIsFirst | src/net/decode/app_decoder.cpp:17-25 | a found position is the first one, and none is found only if there is none |
| HttpResync.FoundStaysFirst | src/net/decode/app_decoder.cpp:10-26 | a found position stays the first one as bytes arrive |
| HttpResync.RescanIsExact | src/net/decode/app_decoder.cpp:52-72 | scanning again from eight bytes before the old end finds what a whole scan finds |
| HttpResume.PrefixDoesNotMatter | src/net/decode/app_decoder.cpp:137-149 | the body parse from the remembered prefix and the one from the first byte agree while the prefix belongs to the message at the front |
| HttpResume.TurnIsHonestExactly | src/net/decode/app_decoder.cpp:94-188 | for any queue and size, a turn leaves a prefix or scan position to another message if and only if a flag ends a response whose body has been looked at, and keeps the invariant if and only if that does not happen or the memory happens to fit what follows |
| HttpResume.TurnStaysInsideExactly | src/net/decode/app_decoder.cpp:135-138 | the exact condition, before the call, under which the next body would be resumed beyond the buffer |
| HttpFragments.FlagsOnlyMatterWhenSet | src/net/decode/app_decoder.cpp:127-135 | a turn that is not told to end a response at its head does what it does with an empty queue, and takes a flag for a final response |
| HttpFragments.TurnExtends | src/net/decode/app_decoder.cpp:94-188 | every round commutes with the arrival of bytes, and stopping loses nothing, while every flag but the last belongs to a HEAD |
| HttpFragments.PollExtends | src/net/decode/app_decoder.cpp:94-188 | polling, receiving and polling again is polling once, under the same condition |
| HttpFragments.CuttingDoesNotMatter | src/net/decode/app_decoder.cpp:94-188 | from any steady state, two ways of cutting one stream of any length end in the same messages, failures, unread bytes and memory, as long as the unread bytes fit 8 MiB at every poll |
| HttpFragments.PollingOnceIsEnough | src/net/decode/app_decoder.cpp:94-188 | a stream that fits as a whole may as well be polled once |
| HttpRepoll.PeerNeverGrows | src/net/decode/app_decoder.cpp:127-132 | polling never adds to the peer's pending requests |
| HttpRepoll.CutInBodyMatters | src/net/decode/app_decoder.cpp:127-155 | cutting a sized or chunked response, nothing behind it, anywhere after its head changes nothing if and only if no further flag is waiting (or it answers a HEAD and is cut at its end) |
| HttpRepoll.CutsAgreeExactly | src/net/decode/app_decoder.cpp:94-188 | from any state with nothing half read, over all streams and all cuts within the limit and while no flag is queued, the cut cannot matter if and only if every waiting flag but the last is set |
| HttpRepoll.ExampleIsAffected | src/net/decode/app_decoder.cpp:127-132 | a concrete response and queue for which the cut does change the result |
| HttpLimit.CutMattersAboveLimit | src/net/decode/app_decoder.cpp:160-179 | a message of any size and kind, polled by itself in two parts, ends in the same state as polled at once if and only if the first part is at most 8 MiB |
| HttpLimit.OversizeChunkedIsCutShort | src/net/decode/app_decoder.cpp:160-179 | any chunked message cut when more than 8 MiB of it have arrived is given up, but decoded when it arrives at once |
| HttpLimit.LimitIsNeeded | src/net/decode/app_decoder.cpp:160-179 | a concrete upload and two ways of cutting it that end differently |
| HttpLimit.LongHeadIsGivenUp | src/net/decode/app_decoder.cpp:110-121 | a head of more than 32768 octets is waited for while at most that many bytes have arrived, and given up from then on |
| HttpLimit.RememberMeans | src/net/decode/app_decoder.cpp:181-183 | a request queues whether its method is HEAD, spelled in octets, if and only if fewer than 1024 flags wait |
| HttpLimit.FlagsAreBounded | src/net/decode/app_decoder.cpp:181-183 | however much is read, at most 1024 flags wait |
| HttpOvertake.TurnStaysInStep | src/net/decode/app_decoder.cpp:94-188 | with no set flag behind an unset one, no turn ever lets a flag overtake a response, whatever the stream and the sizes |
| HttpOvertake.OvertakingExactly | src/net/decode/app_decoder.cpp:127-135 | while the other direction queues nothing, some run lets a flag overtake if and only if a set flag waits behind an unset one |
| HttpLive.AskedStaysInStep | src/net/decode/app_decoder.cpp:181-183 | a flag queued by the other direction keeps every flag in step if and only if it is not set behind an unset one and does not come set and alone for a chunked response that is half read |
| HttpLive.LiveStaysInStep | src/net/decode/app_decoder.cpp:94-188 | over every run of arrivals and queued flags from a fresh decoder, no flag overtakes or can overtake if and only if each is queued when that condition holds |
| HttpLive.AskedStaysSteady | src/net/decode/app_decoder.cpp:181-183 | the exact condition on a queued flag under which cutting still does not matter |
| HttpLive.GrowingQueueCutsAgree | src/net/decode/app_decoder.cpp:94-188 | two runs that queue the same flags at the same places of one stream end in the same state however the stream is cut between them, while each flag keeps the state steady |
| HttpLive.UnfinishedResponseTakesTheNextFlag | src/net/decode/app_decoder.cpp:127-132 | for every response with a body and every cut in it, a flag queued at the cut is taken by that response, and would wait had it been complete |
| HttpDuplex.ServerSideIsLive | src/net/decode/app_decoder.cpp:45-48 | over every sequence of packets of both directions, one direction goes through exactly such a run of arrivals and flags |
| HttpDuplex.EndsAreAlike | src/net/decode/app_decoder.cpp:45-48 | the two directions are treated alike, so this holds of either |
| HttpDuplex.DuplexAccounts | src/net/decode/app_decoder.cpp:94-188 | accounting over every sequence of packets of both directions in which each request is read in time for its flag |
| HttpDuplex.OneFlagIsEnough | src/net/decode/app_decoder.cpp:127-149 | a concrete run with never more than one waiting flag in which a flag overtakes, the next body is resumed beyond the buffer and the accounting fails |
| HttpOvertake.ResumesOutside | src/net/decode/app_decoder.cpp:135-138 | a concrete run after which a chunk prefix of another message points beyond the buffer |
| HttpAccounting.TurnAccounts | src/net/decode/app_decoder.cpp:95-187 | while what is remembered belongs to the front of the buffer, every round consumes bytes and is exactly one of: a message with its head and framed body, the head of an oversize message, one failure, the end of a skip; a stop counts nothing |
| HttpAccounting.RunAccounts | src/net/decode/app_decoder.cpp:94-188 | from a fresh decoder, for fragments of any number and size and every fixed queue with no set flag behind an unset one: every round accounts and resumes inside the buffer, the pieces consumed and the unread bytes are the stream, the messages are those recorded and the failures those given up |
| HttpAccounting.LiveAccounts | src/net/decode/app_decoder.cpp:94-188 | the same over every run in which the other direction queues flags between polls, each of them in time |
| HttpAccounting.NextStartIsFirst | src/net/decode/app_decoder.cpp:10-26 | reading goes on after garbage at the first plausible start of the whole buffer, or with nothing |
| HttpAccounting.SkipTakesTheBody | src/net/decode/app_decoder.cpp:96-102 | a skip lets exactly the rest of the body pass, in however many pieces it arrives |
| HttpAccounting.OvertakingMisframes | src/net/decode/app_decoder.cpp:127-149 | a concrete run in which a flag has overtaken and a message is recorded whose body is malformed |
| HttpPipeline.MessageTurn | src/net/decode/app_decoder.cpp:108-187 | one round reads one message, to a HEAD or with a body, and leaves what follows it |
| HttpPipeline.PartWaits | src/net/decode/app_decoder.cpp:116-178 | a message that is not all there waits with the buffer as it is; its flag is taken once its head is there |
| HttpPipeline.PipelineIsDecoded | src/net/decode/app_decoder.cpp:94-188 | requests, interim responses, responses to HEADs and a last response with a body, in a stream of any length cut anywhere, are decoded into exactly themselves with no failure |
| HttpPipeline.SmallPiecesFit | src/net/decode/app_decoder.cpp:160-161 | messages and fragments that are small enough together never exceed the limit, however many there are |
| HttpUnframed.WrittenLengthFrames | src/net/protocols/http.cpp:170-175 | fields that say a length once, in decimal, frame exactly that many octets, and are malformed from 2^64 on |
| HttpUnframed.SizedIsProper | src/net/protocols/http.cpp:170-175 | a head whose length field is the decimal of its body's size is one the results on streams of messages are about |
| HttpUnframed.NothingBehindHead | src/net/protocols/http.cpp:242-245 | behind a 1xx, 204 or 304 response, whatever its fields say, the next message starts right after the head |
| HttpUnframed.UntilCloseIsTaken | src/net/decode/app_decoder.cpp:104-107 | a final response about whose body nothing is said, in any pieces: everything behind its head, anything at all, is its body, and so is all that follows |
| HttpUnframed.UntilCloseIsOneMessage | src/net/decode/app_decoder.cpp:156-158 | then exactly that one message is recorded, nothing fails and nothing is left unread |
| HttpExchange.ConversationIsDecoded | src/net/decode/app_decoder.cpp:94-188 | a whole conversation of requests, alone or several at a time of which all but the last are HEADs, and their replies, both directions cut anywhere, is decoded in order with no failure and no flag left over |
| AppDecoder.Applications.Remember | src/net/decode/app_decoder.cpp:181-183 | a request's HEAD flag is queued up to the limit |
| AppDecoder.ResyncHttp | src/net/decode/app_decoder.cpp:52-72 | the object-level resynchronisation is the value function's |
| AppDecoder.CompleteMessage | src/net/decode/app_decoder.cpp:181-186 | the message is recorded and its bytes consumed |
| AppDecoder.IncompleteBody | src/net/decode/app_decoder.cpp:160-179 | wait, skip an oversize body, or resynchronise |
| AppDecoder.FrameBody | src/net/decode/app_decoder.cpp:126-187 | the loop body behind a parsed head, with the pop of the peer's queue |
| AppDecoder.HttpTurn | src/net/decode/app_decoder.cpp:95-187 | one pass of the loop on the real stream and counters |
| AppDecoder.PollHttp | src/net/decode/app_decoder.cpp:94-188 | the loop terminates and leaves stream, counters and queue as specified |
| AppDecoder.DnsTurn | src/net/decode/app_decoder.cpp:78-92 | one pass of the DNS loop |
| AppDecoder.PollDns | src/net/decode/app_decoder.cpp:77-93 | the DNS loop as specified |
| AppDecoder.PollStream | src/net/decode/app_decoder.cpp:74-190 | port 53 at either end means DNS, else port 80 HTTP, else nothing is read; nor is it unless the connection is established or in a FIN wait |
| EndToEnd.GainsAddUp | src/net/decode/decoder.cpp:35-51 | the pieces that packets make readable add up to what reassembly hands up |
| EndToEnd.HttpSurvivesDelivery | src/net/decode/decoder.cpp:35-51 | well-formed messages in segments cut anywhere and delivered in any order, polled after each packet, decode to exactly those messages, as long as the unread bytes fit at every poll |
| EndToEnd.HttpOfAnyLengthSurvivesDelivery | src/net/decode/decoder.cpp:35-51 | the same for any number of messages that each leave room for what one packet can make readable, with no condition on the polls |
| EndToEnd.DnsSurvivesDelivery | src/net/decode/decoder.cpp:35-51 | the same for framed DNS messages, malformed ones being one failure each |
| ConnectionReader.DriveIsPolling | src/net/decode/app_decoder.cpp:74-75 | over every run of packets, the decoder has seen exactly the pieces that the connection state offered, and these and what is pending are what has been handed up |
| ConnectionReader.LastPollCatchesUp | src/net/flow/tcp_reassembler.cpp:236-238 | after a packet in a state that offers its data nothing is pending |
| ConnectionReader.HttpOverConnection | src/net/decode/decoder.cpp:35-51 | from packets to messages through handshake, reordering, resets, the other endpoint's packets, reads and the FIN: if all has arrived and been offered, the messages are those sent, with no failure and nothing left, and the FIN is taken exactly if it was carried |
| ConnectionReader.DnsOverConnection | src/net/decode/decoder.cpp:35-51 | the same for DNS over TCP |
| ConnectionOffer.StepOffers | src/net/flow/tcp_reassembler.cpp:236-238 | a packet of this endpoint that leaves it established or in a FIN wait leaves nothing pending; after any other packet, what it hands up is pending behind what was and the decoder stands still |
| ConnectionOffer.DataIsOffered | src/net/flow/tcp_reassembler.cpp:236-238 | over every run in which no FIN or RST of the other endpoint comes before the last packet that hands up data, and that is not the first SYN, nothing is pending at the end, that packet's own FIN included |
| ConnectionOffer.TransferIsOffered | src/net/flow/tcp_reassembler.cpp:31-138 | if the other endpoint neither closes nor resets while bytes of the source are missing, everything that was brought has been offered |
| ConnectionOffer.HttpOverOpenConnection | src/net/decode/decoder.cpp:35-51 | from packets to HTTP messages through the whole connection, with nothing assumed about what was offered |
| ConnectionOffer.DnsOverOpenConnection | src/net/decode/decoder.cpp:35-51 | the same for DNS over TCP |
| ConnectionOffer.NothingIsReadHalfClosed | src/net/flow/tcp_reassembler.cpp:236-238 | after the other endpoint has closed first and until the connection is closed altogether, the decoder stands still and all that is handed up is pending |
| ConnectionOffer.AfterTheOthersFin | src/net/flow/tcp_reassembler.cpp:105-109 | the same told by the packets: the other's FIN, any packets without RST and FIN of this side, and a last one with or without its FIN |
| ConnectionOffer.SynDataWaits | src/net/flow/tcp_reassembler.cpp:36-41 | data on the first SYN is pending through the other side's answer and is read with the packet that acknowledges it |
| FlowKey.DirectionsShareKey | src/net/flow/flow_key.cpp:21-34 | both directions share one normal form, the flag tells them apart, and normalising twice is normalising once |
| FlowKey.SameKeySameConnection | src/net/flow/flow_key.cpp:12-34 | keys share a normal form if and only if they are equal or opposite |
| FlowKey.NormalFormIsLeast | src/net/flow/flow_key.cpp:21-34 | the ends are swapped if and only if the source address is the larger at the first octet in which they differ, or none differs and the source port is the larger |
| FlowTable.FlowTable.RetireExpired | src/net/flow/flow_table.cpp:34-39 | the active flow moves to the completed ones exactly when it is expired |
| FlowTable.FlowTable.AddPacket | src/net/flow/flow_table.cpp:21-59 | the whole new table and the answer, refusals included |
| FlowTable.FlowTable.Flush | src/net/flow/flow_table.cpp:138-143 | every key keeps exactly its flows, all of them completed, and the total is conserved |
| FlowTable.PacketConserves | src/net/flow/flow_table.cpp:32-56 | a packet keeps the total equal to the sum over all flows |
| FlowSplit.RunConserves | src/net/flow/flow_table.cpp:21-59 | the total is the sum over completed and active flows after every trace |
| FlowSplit.OtherKeysUntouched | src/net/flow/flow_table.cpp:27-56 | a packet never affects the flows of another key |
| FlowSplit.FlowsAreGreedyGroups | src/net/flow/flow_table.cpp:21-59 | over every trace the flows of each key are the records of the greedy split of that key's packets |
| FlowSplit.PayloadIsKeptByPort | src/net/flow/flow_table.cpp:14-18 | over every trace, each flow keeps its payload if and only if a packet of its connection, as captured and in either direction, has port 53 or 80 at either end; the same ports for which `AppDecoder.PollStream` reads |
| FlowSplit.NewMeansOneMoreFlow | src/net/flow/flow_table.cpp:27-48 | over every trace, a packet is answered with its normal form and called new if and only if its key has one flow more than before |
| FlowSplit.CutsModulo | src/net/flow/flow_table.cpp:118-122 | whatever time does, a packet cuts if and only if it is not earlier than the last one and the gap, or the span modulo 2^64, is beyond its timeout |
| FlowSplit.GroupsIsTheGreedySplit | src/net/flow/flow_table.cpp:34-47 | that split is the one and only division that cuts exactly where a packet comes too late |
| FlowSplit.FlowsAreGapsAndSpans | src/net/flow/flow_table.cpp:21-122 | over every trace in which time does not run back, the flows of each key are the records of the one division whose every cut is at an idle gap or an active span beyond its timeout and whose every join is at neither |
| Ipv6Text.FormsAreAccepted | src/net/protocols/ipv6.cpp:77-140 | every text of the grammar is accepted with its meaning |
| Ipv6Text.ParserAcceptsTheGrammar | src/net/protocols/ipv6.cpp:77-140 | the parser accepts exactly the texts of section 2.2 of RFC 4291 without an embedded IPv4 part, each with its one meaning |
| Ipv6Text.Hex4ReadBack | src/net/protocols/ipv6.cpp:71 | the four digits written for a group are read back as it |
| Ipv6Text.DigitsByCharacter | src/net/protocols/ipv6.cpp:78-83 | the sixteen digits by their characters: both cases are read, the lower-case ones are written |
| Ipv6Text.Hex4IsLowerCase | src/net/protocols/ipv6.cpp:71 | a printed group has four characters and no upper-case letter |
| Ipv6Parser.ReadDigits | src/net/protocols/ipv6.cpp:102-108 | the digit loop reads one to four digits and their value |
| Ipv6Parser.ReadGroupsFrom | src/net/protocols/ipv6.cpp:101-122 | the main loop reads the groups and the place of the gap |
| Ipv6Parser.Fill | src/net/protocols/ipv6.cpp:124-139 | the assembling loops write the groups around the zeros, or nothing |
| Ipv6Parser.AddressFromString | src/net/protocols/ipv6.cpp:77-140 | the buffer holds the address when the text is one and is untouched otherwise |
| Ipv6Printer.LastZero | src/net/protocols/ipv6.cpp:49-52 | the inner loop stops at the end of the zero run |
| Ipv6Printer.FindBest | src/net/protocols/ipv6.cpp:44-60 | the run found is the leftmost of the longest runs of at least two zero groups, if there is one |
| Ipv6Printer.PrintIp | src/net/protocols/ipv6.cpp:43-75 | what is printed is the text with that run as `::`, and it parses back to the address |
| Ipv6Printer.BestIsUnique | src/net/protocols/ipv6.cpp:44-60 | section 4.2 of RFC 5952 leaves one choice |
| Ipv6Printer.PrintedIsReadBack | fuzz/fuzz_address.cpp:25-33 | printing and then parsing gives the same address, for all 2^128 of them |
| Ipv6Printer.PrintingIsInjective | src/net/protocols/ipv6.cpp:43-75 | an address has one printed text and no two share it |
| Ipv6Printer.AtMostOneGap | src/net/protocols/ipv6.cpp:63-72 | a printed text has at most one `::`, and has one exactly when two zero groups are adjacent |

## Left out

- Header parsers and layer dispatch (Ethernet, VLAN, ARP, IPv4, IPv6, UDP, ICMP, pcap), file mapping, command line, text and JSON output, benchmark timing: length checks, byte swaps and I/O.
- IPv4 text and `toString`/`toJson`: formatting only.
- `capacity`, `reserve` and `shrink_to_fit`: no effect on contents.
- Hash functions, `std::sort` in `allFlows`, iterator stability: maps and sequences are used directly; `Flush` walks the map in an arbitrary order.
- Widths of `size_t` and of the 64-bit packet and byte counters: unbounded, so their wrap-around is not modelled. 32-bit sequence numbers and the unsigned subtraction of 64-bit timestamps are exact.
- Payloads longer than 65535 bytes: IP lengths are 16-bit fields, so the conversions of `span.size()` to 32 bits lose nothing.
- Header flags other than SYN, ACK, FIN and RST: the reassembler does not look at them.
- The port test of `pollFlow`, `pollDatagram`, `appStateFor`, `prune`, `reset` and the DNS table's `record`: bookkeeping around `pollStream`.
- The reassemblers and the decoder state that a flow record owns: `FlowTable.Flow` keeps the counters, times and the payload mode; separate decoder state of retired flows with the same key is not modelled.
- `std::isdigit` on octets above 127: taken to be false.
- `from_chars`: modelled as an exact hexadecimal value that fails on a stray character and above 64 bits.
- Only network byte order of DNS messages is modelled, as every caller asks for it.
- DnsName.ParseName: works on positions in the message; the span that the program leaves moved after a failed parse is not modelled, as no caller reads it.
- HttpPoll.WithHead: a remembered chunk prefix that reaches past the buffer, which the program does not define, is taken to the end of the buffer; `HttpOvertake.OvertakingExactly` and `HttpResume.TurnStaysInsideExactly` say exactly when it can occur.
- AppDecoder.FrameBody: follows `HttpPoll.WithHead` there, so in such a state it says what the model does, not what the program would do.
- HttpResume.PrefixDoesNotMatter: asks that the prefix belongs to the message at the front; `HttpResume.TurnIsHonestExactly` says exactly when a turn ends that.
- HttpAccounting.TurnAccounts: the same hypothesis; it is false without it (`HttpAccounting.OvertakingMisframes`), and `HttpAccounting.LiveAccounts` has no such hypothesis.
- HttpAccounting.RunAccounts: the other direction queues nothing during the run; `HttpAccounting.LiveAccounts` lets it.
- HttpOvertake.OvertakingExactly: the other direction queues nothing during the run; `HttpLive.LiveStaysInStep` lets it.
- HttpRepoll.CutsAgreeExactly: the other direction queues nothing while the stream arrives; for a queue that grows `HttpLive.GrowingQueueCutsAgree` proves one direction, with the exact condition on each flag.
- HttpParser.ParseChunkedBody: returns the decoded bytes instead of appending to a caller's vector.
- HttpFragments.CuttingDoesNotMatter: its conditions are needed: `HttpRepoll.CutsAgreeExactly` for the queue, `HttpLimit.CutMattersAboveLimit` for the limit.
- HttpPipeline.PipelineIsDecoded: responses whose body lasts until the connection closes are not among the messages, as nothing can follow them; `HttpUnframed.UntilCloseIsOneMessage` is about them.
- HttpUnframed.UntilCloseIsTaken: the response is the first thing in its buffer, and answers no HEAD.
- HttpExchange.ConversationIsDecoded: no request is read while a reply is half read; the code then takes the request's flag for that reply (`HttpLive.UnfinishedResponseTakesTheNextFlag`).
- Checksum.VerifyChecksum: bounded to buffers of at most 2^34 bytes and a pseudo-header sum for which no 64-bit accumulator overflows.
- TcpConnection.RunIsFaithful: each segment must end within 2^31 of the position, and a repeated SYN with data must be one that does no harm, by the exact condition of `TcpConnection.RepeatedSynHarmsExactly`.
- TcpConversation.ConversationEndsProperly: no retransmission or reordering inside the conversation; those are the subject of `TcpDelivery` and `TcpConnection`.
- EndToEnd.HttpSurvivesDelivery: one direction in the data phase, with flags that wait from the start; `ConnectionReader.HttpOverConnection` takes the whole connection, also with flags that wait from the start.
- EndToEnd.HttpOfAnyLengthSurvivesDelivery: one direction in the data phase, as above.
- EndToEnd.DnsSurvivesDelivery: one direction in the data phase; `ConnectionReader.DnsOverConnection` takes the whole connection.
- ConnectionReader.HttpOverConnection: assumes that all has been offered; `ConnectionOffer.HttpOverOpenConnection` assumes instead, of the packets alone, that the other side does not close while bytes are missing. What is handed up after its FIN is never offered by the code (`ConnectionOffer.AfterTheOthersFin`).
- ConnectionOffer.HttpOverOpenConnection: the last missing bytes do not come on a SYN; those wait for the packet that acknowledges the handshake (`ConnectionOffer.SynDataWaits`).
- FlowSplit.FlowsAreGapsAndSpans: timestamps that do not decrease; with others `FlowSplit.FlowsAreGreedyGroups` still holds with the code's own comparison.
- A bound on the number of stored out-of-order segments: the code bounds their bytes only.
