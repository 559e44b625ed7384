# A verified model of a user-space TCP/IP stack

The project models the stateful core of `libsponge`, a TCP/IP stack that lives in one
process: byte stream, stream reassembler, 32/64-bit sequence numbers, TCP receiver,
sender and connection, the ARP network interface, the longest-prefix router, the
Internet checksum and the TCP-in-IPv4 codec. `dafny verify dfyconfig.toml` checks all of it.

## How it is built

Objects that the source updates in place are classes (`ByteStream`, `StreamReassembler`,
`TCPReceiver`, `TCPSender`, `TCPConnection`, `NetworkInterface`, `Router`,
`InternetChecksum`, `NetParser`, `TCPOverIPv4Adapter`). Each has a `State()` that is a plain
value, and each method is proved to take `State()` where a function on values takes it.
Loops of the source are loops here. The promises are then proved about the values, over
whole runs:

- `Network` puts two connections on a network that holds every packet ever emitted and may
  deliver any of them at any time, any number of times or never. The only condition on a
  delivery is that its sequence number lies within 2^31 of the receiver's checkpoint
  (`Network.Near`); under it alone, both streams arrive as prefixes of what was written
  (`Network.Prefix`). Acknowledgments carry 32-bit numbers too, and `Network.AckExactly` says
  exactly when a sender takes one for another: when a number not yet acknowledged has the
  same 32 bits, which takes a whole turn of 2^32. In runs in which no such acknowledgment
  arrives, acknowledgments are sound (`Safety`), a clean end means full delivery both ways
  (`CleanClose`), and the oldest outstanding segment, when it arrives, is acknowledged
  (`Progress.DeliveryProgresses`). `Network.ReachableFlip` makes every result hold for
  either end; `WorldRuns` carries the results about single connections into this world.
- `ConnectionRuns` looks at one connection with an arbitrary peer, beside a record of what was
  seen from outside. `Ending` lists the only ways in which it can end, with the times they
  take, and `EndsInTime` says that it then does; `NothingHeldBack` and `ResendsInTime` say
  what it has to send and when.
- `Resolution.Requests` and `Resolution.Replies` say exactly which ARP frames go out, from
  what was sent and heard before; `ArpSpacing`, `Direction` and `Conservation` are about all
  frames of a run.
- `StreamReassembler.PushSubstring` keeps a sorted list of merged intervals; `Reassembly.Push`
  keeps a map from index to byte. The first is proved to be the second, and
  `ReassemblyRuns` derives completeness and order independence from the map.
- `Router` follows links instead of scanning. `LongestPrefix.LookupIsLinear` equates that
  with a scan of the routes for tables built by safe additions, such as adding every prefix
  before those inside it. For other orders it is false: `RouteOrder.SafeExactly` gives the
  exact condition on the next addition and `LongestPrefix.SafeOrdersExactly` on whole orders.

Queued segments carry, in ghost fields of the classes and in the values, the absolute
numbers behind their 32-bit ones; no decision reads them.

Assumptions about the environment: nobody writes to a stream after ending it, a stream
carries fewer than 2^63 bytes, and only the reader pops the inbound stream. The initial
sequence number, the clock and the logarithm in `add_route` are parameters.

Where the code and its comments differ, the code is followed: the comment at
libsponge/router.cc:42-52 speaks of the nearest prefix that includes the new one, while the links
only promise what `Routing.LinkOK` says; `parse` of datagrams and segments discards the
verdict on the header (libsponge/tcp_helpers/ipv4_datagram.cc:13,
libsponge/tcp_helpers/tcp_segment.cc:20).

## Model

| member | source | states |
|---|---|---|
| `WrappingIntegers.WrapPlus` | libsponge/wrapping_integers.cc:13-17 | adding to the wrapped number is wrapping the sum |
| `WrappingIntegers.UnwrapByDistance` | libsponge/wrapping_integers.cc:46-70 | all the branches of unwrap amount to three cases of the forward distance from the checkpoint, in 64-bit arithmetic |
| `WrappingIntegers.UnwrapWraps` | libsponge/wrapping_integers.cc:20-71 | whatever unwrap returns wraps to n |
| `WrappingIntegers.UnwrapClosest` | libsponge/wrapping_integers.cc:20-71 | no 64-bit number that wraps to n is closer to the checkpoint, if and only if the addition does not overflow 64 bits |
| `WrappingIntegers.UnwrapRecovers` | libsponge/wrapping_integers.cc:20-71 | every number less than 2^31 away from the checkpoint is recovered from its wrapped form |
| `WrappingIntegers.ShortFormAgrees` | libsponge/wrapping_integers.cc:23-41 | exactly when the short form in the comment agrees: always where both go forward; where there is room to go back, not at forward distance exactly 2^31 with the checkpoint's 32 bits above n (unless the 64-bit sum overflows), and elsewhere unless the 64-bit sum overflows |
| `ByteStreams.ByteStream.constructor` | libsponge/byte_stream.cc:5 | an empty stream of the capacity |
| `ByteStreams.ByteStream.Write` | libsponge/byte_stream.cc:7-15 | as much of the data as there is room for, and exactly what is returned as accepted, is appended to all that was ever written |
| `ByteStreams.ByteStream.PeekOutput` | libsponge/byte_stream.cc:17 | the front of what is written and not read, nothing changed |
| `ByteStreams.ByteStream.PopOutput` | libsponge/byte_stream.cc:19-23 | at most what is there is taken from the front |
| `ByteStreams.ByteStream.Read` | libsponge/byte_stream.hh:34-38 | consecutive reads return consecutive pieces of everything written |
| `ByteStreams.ByteStream.EndInput` | libsponge/byte_stream.hh:40 | the input is ended and nothing else changes |
| `ByteStreams.ByteStream.SetError` | libsponge/byte_stream.hh:26 | the error is set and nothing else changes |
| `ByteStreams.ByteStream.RemainingCapacity` | libsponge/byte_stream.hh:54 | capacity less what is written and not read |
| `Reassembly.RunEnd` | libsponge/stream_reassembler.cc:109-115 | the end of the maximal contiguous run of held indices from a start |
| `Reassembly.DrainExact` | libsponge/stream_reassembler.cc:109-115 | what is delivered is exactly the maximal run, never truncated by the output, and the window's right edge stays |
| `Reassembly.PushSteps` | libsponge/stream_reassembler.cc:17-120 | every push keeps the invariant of the byte map and only appends to the output |
| `Reassembly.PushEof` | libsponge/stream_reassembler.cc:18-24 | the first announced end is kept, in 64-bit arithmetic, and nothing happens after the end |
| `Reassembly.PushKnows` | libsponge/stream_reassembler.cc:27-115 | conservation: exactly the old bytes and the pushed bytes inside the window are delivered or held afterwards |
| `Reassembly.PushFollows` | libsponge/stream_reassembler.cc:27-119 | pushing an excerpt of a stream leaves only pieces of that stream |
| `Reassembly.PushUnites` | libsponge/stream_reassembler.cc:27-115 | for excerpts of one stream, the byte map inside the window after absorbing is the union of what was held and what was pushed |
| `Reassembly.PushAdvances` | libsponge/stream_reassembler.cc:31-119 | a push that covers the first missing index, with room for it, delivers it |
| `StreamReassemblers.Locate` | libsponge/stream_reassembler.cc:54-64 | the interval, if any, that starts at the index or is the nearest before it |
| `StreamReassemblers.Place` | libsponge/stream_reassembler.cc:54-87 | the excerpt is covered by, extends, or is new beside the stored intervals, with the bytes it adds |
| `StreamReassemblers.Swallow` | libsponge/stream_reassembler.cc:88-107 | later intervals covered or touched are merged, the bytes dropped are counted, the map of bytes is unchanged |
| `StreamReassemblers.Clip` | libsponge/stream_reassembler.cc:26-49 | the part of the excerpt inside the window, or that there is none |
| `StreamReassemblers.Incorporate` | libsponge/stream_reassembler.cc:53-115 | the intervals after the push show the byte map after absorbing and draining, and the counter moves by the same amount |
| `StreamReassemblers.StreamReassembler.constructor` | libsponge/stream_reassembler.cc:12 | an empty reassembler |
| `StreamReassemblers.StreamReassembler.PushSubstring` | libsponge/stream_reassembler.cc:17-120 | the sorted, disjoint, non-adjacent intervals do what the byte map does |
| `StreamReassemblers.StreamReassembler.Accounting` | libsponge/stream_reassembler.cc:66-115 | the counter is the number of distinct held indices; with the buffered bytes it fits the capacity |
| `StreamReassemblers.StreamReassembler.UnassembledBytes` | libsponge/stream_reassembler.cc:122 | the number of distinct held indices |
| `ReassemblyRuns.RunFits` | libsponge/stream_reassembler.hh:40-49 | in every run of pushes and reads, held and buffered bytes together fit the capacity |
| `ReassemblyRuns.Completeness` | libsponge/stream_reassembler.cc:14-120 | whatever the order, overlap and duplication, the stream up to the least uncovered index is delivered, and input ends exactly when the announced end is reached |
| `ReassemblyRuns.OrderIndependence` | libsponge/stream_reassembler.cc:14-120 | runs that cover the same indices deliver the same bytes and the same end |
| `Receiving.ReceiveKeeps` | libsponge/tcp_receiver.cc:10-63 | any segment from anyone keeps the receiver's invariant, never moves the acknowledgment back, and only appends to the stream |
| `Receiving.AcknoIsCount` | libsponge/tcp_receiver.cc:34-66 | the advertised number is the wrapped count of SYN, assembled bytes and FIN |
| `Receiving.SynTakes` | libsponge/tcp_receiver.cc:10-50 | the first SYN fixes the numbering, and exactly those bytes of its payload that fit the window are taken in as the start of the stream |
| `Receiving.SegmentTakes` | libsponge/tcp_receiver.cc:17-33 | after the SYN, a segment that lies less than 2^31 from the last byte assembled, as does the number before it, in order or not, adds exactly its bytes inside the window, each in its place, and its FIN |
| `Receiving.RunEdge` | libsponge/tcp_receiver.cc:34-68 | in every run of segments and reads, the number is exact and the right edge of the window never moves left |
| `TCPReceivers.TCPReceiver.UpdateAckno` | libsponge/tcp_receiver.cc:34-50 | the bookkeeping of the acknowledgment number, with a payload on the SYN |
| `TCPReceivers.TCPReceiver.NoteFin` | libsponge/tcp_receiver.cc:51-60 | the three states of FIN |
| `TCPReceivers.TCPReceiver.SegmentReceived` | libsponge/tcp_receiver.cc:10-63 | the object does what the function on values does and keeps its invariant |
| `TCPReceivers.TCPReceiver.Ackno` | libsponge/tcp_receiver.cc:66 | the wrapped count of SYN, assembled bytes and FIN, none before the SYN |
| `TCPReceivers.TCPReceiver.WindowSize` | libsponge/tcp_receiver.cc:68 | the room left in the inbound stream |
| `Sending.EmitNumbers` | libsponge/tcp_sender.cc:33-75 | a segment starts at the next number, fits the allowance, and counts SYN, bytes read and FIN |
| `Sending.FillKeeps` | libsponge/tcp_sender.cc:22-79 | the invariant is kept, no number passes last acked + max(1, window), payloads are at most 1000 bytes, and filling stops only at the limit, after FIN or for want of bytes |
| `Sending.FillFull` | libsponge/tcp_sender.cc:47-60 | of the segments that one filling adds, all but the last carry 1000 bytes |
| `Sending.PopKeeps` | libsponge/tcp_sender.cc:104-110 | what stays queued is exactly the suffix that ends beyond the acknowledged number |
| `Sending.AckAccepted` | libsponge/tcp_sender.cc:83-92 | an acknowledgment advances the sender if and only if it is the wrap of a number in (last acked, next], and then to that number |
| `Sending.AckKeeps` | libsponge/tcp_sender.cc:83-112 | any acknowledgment keeps the invariant and takes back nothing sent |
| `Sending.TickKeeps` | libsponge/tcp_sender.cc:115-132 | so does the passage of time |
| `TCPSenders.TCPSender.TakeSegment` | libsponge/tcp_sender.cc:33-68 | the next segment and the bytes taken for it |
| `TCPSenders.TCPSender.FillWindow` | libsponge/tcp_sender.cc:22-79 | the loop ends and does what the function on values does |
| `TCPSenders.TCPSender.AckReceived` | libsponge/tcp_sender.cc:83-112 | the object does what the function on values does |
| `TCPSenders.TCPSender.Tick` | libsponge/tcp_sender.cc:115-132 | the object does what the function on values does, with 32-bit doubling; when it retransmits is `SenderRuns.Retransmission` |
| `TCPSenders.TCPSender.SendEmptySegment` | libsponge/tcp_sender.cc:136-142 | an empty segment with the next number is queued |
| `SenderRuns.Tiling` | libsponge/tcp_sender.cc:41-110 | in every run, first-time segments tile [0, next) with the matching slices of the stream, and the outstanding queue is the suffix that ends beyond last acked |
| `SenderRuns.BackOff` | libsponge/tcp_sender.cc:99-131 | in every run, the timeout is the initial one doubled once per consecutive retransmission, an empty queue means a zero timer, and the doublings took their time |
| `SenderRuns.Retransmission` | libsponge/tcp_sender.cc:115-132 | in every run, a tick queues the oldest outstanding segment again if and only if something is outstanding and a clock of its own, restarted by retransmissions and accepted acknowledgments, has reached the initial timeout doubled once per retransmission into an open window, modulo 2^32; otherwise it queues nothing |
| `SenderRuns.AckRejected` | libsponge/tcp_sender.cc:83-92 | an acknowledgment that is not accepted changes the window and nothing else: not the timer, the timeout or the count of retransmissions |
| `TCPConnections.TCPConnection.constructor` | libsponge/tcp_connection.hh:10-31 | a fresh connection |
| `TCPConnections.TCPConnection.PullPushSegments` | libsponge/tcp_connection.cc:42-69 | the sender's queue goes out in order, with acknowledgment and window, or the reset flag |
| `TCPConnections.TCPConnection.FullyDead` | libsponge/tcp_connection.cc:24-40 | the ends by reset and the normal end |
| `TCPConnections.TCPConnection.JudgeDo` | libsponge/tcp_connection.cc:71-112 | the order of the judgments and their effects; when a connection has to end is `ConnectionRuns.EndsInTime` |
| `TCPConnections.TCPConnection.SegmentReceived` | libsponge/tcp_connection.cc:115-178 | the object does what the function on values does and keeps its invariant; what it has to send is `ConnectionRuns.NothingHeldBack` |
| `TCPConnections.TCPConnection.Write` | libsponge/tcp_connection.cc:182-190 | the object does what the function on values does; returns how much was accepted |
| `TCPConnections.TCPConnection.Tick` | libsponge/tcp_connection.cc:193-208 | the object does what the function on values does |
| `TCPConnections.TCPConnection.EndInputStream` | libsponge/tcp_connection.cc:210-214 | the object does what the function on values does |
| `TCPConnections.TCPConnection.ReadInbound` | libsponge/tcp_connection.hh:55 | reading the inbound stream returns its next bytes and changes nothing else |
| `TCPConnections.TCPConnection.Connect` | libsponge/tcp_connection.cc:216-219 | the object does what the function on values does |
| `ConnectionProofs.ApplyKeeps` | libsponge/tcp_connection.cc:24-219 | every operation, whatever arrives, keeps the invariant: what is queued for the network is true of both streams, and an end without reset means both are finished |
| `ConnectionEffects.Effects` | libsponge/tcp_connection.cc:115-219 | what each operation does to the receiver, to the last acknowledged number and the timers, and nothing more |
| `Judgment.Prepare` | libsponge/tcp_connection.cc:115-219 | every operation but reading leaves the halves with nothing more that could be sent, the queue grown by all that is new, and the need to linger lost exactly when a segment that does not open the connection finds the peer finished first; then it judges |
| `Judgment.TickSends` | libsponge/tcp_connection.cc:193-208 | a tick that is due puts the oldest outstanding segment on the wire first, any other sends only new numbers |
| `ConnectionRuns.Ending` | libsponge/tcp_connection.cc:71-112 | a connection with any peer ends by a reset that arrived or by nine unanswered timeouts in at least 511 * rt_timeout and a reset sent, with both streams in error; or, with neither in error, when both are finished and either the peer was first or nothing arrived for 10 * rt_timeout |
| `ConnectionRuns.EndsInTime` | libsponge/tcp_connection.cc:71-112 | the converse: in no run is a connection active after a reset arrived, after more than 8 retransmissions in a row, or with both streams finished and either the peer heard to finish first or 10 * rt_timeout of silence |
| `ConnectionRuns.NothingHeldBack` | libsponge/tcp_connection.cc:145-190 | in every run, an active connection that anything made open has sent its SYN, and has sent its FIN, or max(1, window) numbers past last acked, or all it was given while it may get more; every number below next is in a packet put on the outbound queue |
| `ConnectionRuns.ResendsInTime` | libsponge/tcp_connection.cc:193-208 | in every run, the first packet out of a tick carries the oldest outstanding segment if a clock kept outside the connection has reached the doubled timeout; any other tick sends only new numbers |
| `ConnectionRuns.SpeaksTruth` | libsponge/tcp_connection.cc:42-69 | in every run, every packet sent carries the reset flag, or acknowledges exactly what is assembled and offers exactly the room there is, at most 65535 |
| `Network.DoHonest` | libsponge/tcp_connection.cc:115-219 | every event at an endpoint, however old the acknowledgments, leaves both receivers holding only pieces of what the peer sent, in place |
| `Network.AckExactly` | libsponge/tcp_sender.cc:83-92 | a sender reads an acknowledgment of at most next as what it is if and only if no other number in (last acked, next] has the same 32 bits |
| `Network.RecentNotMistaken` | libsponge/tcp_sender.cc:88-90 | an acknowledgment less than 2^32 behind next is never mistaken |
| `Network.OldMistaken` | libsponge/tcp_sender.cc:88-92 | one that is 2^32 behind a number not yet acknowledged moves the sender to that number |
| `Network.DoKeeps` | libsponge/tcp_connection.cc:115-219 | every event at which no acknowledgment is mistaken keeps the whole invariant of the two-endpoint world |
| `Network.Prefix` | libsponge/tcp_connection.cc:115-178 | in every run, with deliveries within 2^31 of the receiver's checkpoint and acknowledgments of any age, both streams arrive as prefixes of what was written and an announced end is the true one |
| `Network.Safety` | libsponge/tcp_connection.cc:115-178 | in every run in which no acknowledgment is mistaken, last acked <= assembled at the peer <= next, so nothing leaves the queue before the peer has it |
| `Network.NeverTooFarAhead` | libsponge/tcp_receiver.cc:23-31 | where acknowledgments are sound, no packet is too far ahead of the checkpoint, so only old ones are kept out |
| `Network.CleanClose` | libsponge/tcp_connection.cc:71-112 | as soon as either endpoint is inactive without a reset, both streams have been delivered whole, ends included |
| `Network.ReachableFlip` | libsponge/tcp_connection.hh:10-31 | the two ends are alike: what is reachable is reachable with the ends exchanged |
| `Network.WindowFits` | libsponge/stream_reassembler.cc:26-49 | in every run, with capacities up to 2^62 and payloads of at most 65535 bytes, index arithmetic stays within 64 bits |
| `WorldRuns.CloseTakesTime` | libsponge/tcp_connection.cc:95-108 | in every run of the two endpoints, one that ends without a reset saw its peer finish first or heard nothing for 10 * rt_timeout |
| `Progress.ReachableSound` | libsponge/tcp_sender.cc:38-60 | in every run in which no acknowledgment is mistaken, a SYN travels alone and payloads are bounded |
| `Progress.FrontAdvances` | libsponge/stream_reassembler.cc:31-119 | the oldest outstanding segment, delivered where there is room for a byte, moves the peer's acknowledgment past what was acknowledged |
| `Progress.Answers` | libsponge/tcp_connection.cc:132-177 | every segment that occupies sequence space, and every empty one just before the number expected, is answered at once, and everything sent then carries the current acknowledgment |
| `Progress.EmptyAnswer` | libsponge/tcp_connection.cc:148-177 | an empty segment makes the connection send an empty segment if and only if its number is the one before the number expected |
| `Progress.DeliveryProgresses` | libsponge/tcp_connection.cc:132-177 | in every reachable world, any copy of the oldest outstanding segment whose own acknowledgment cannot be mistaken can be delivered to an active peer with room for a byte, and delivering any of the peer's answers strictly increases last acked, with no condition on the sender |
| `Progress.DeliveryProgressesOther` | libsponge/tcp_connection.cc:132-177 | the same with the ends exchanged |
| `Progress.NeverStuck` | libsponge/tcp_connection.cc:115-208 | from every reachable world in which both ends are active, one has something outstanding and either fewer than 8 consecutive retransmissions or a closed window before it, and the other's capacity is not zero, four moves strictly increase last acked |
| `Progress.NeverStuckOther` | libsponge/tcp_connection.cc:115-208 | the same with the ends exchanged |
| `Prefixes.Nested` | libsponge/router.cc:79-86 | aligned prefixes never cross: one that starts in an earlier one lies inside it |
| `Routing.RelinkImproves` | libsponge/router.cc:53-87 | the relinking loop spoils no good link and gives the next entry one if it ends later |
| `Routing.Overtakes` | libsponge/router.cc:68-78 | both ways of skipping lead to the same entry |
| `Routing.AddKeeps` | libsponge/router.cc:32-87 | adding a route keeps the table sorted and every link jumping back only over entries that end no later |
| `Forwarding.SearchLongest` | libsponge/router.cc:99-132 | where jumps do no harm, following links ends within as many steps as there are entries, at the longest match |
| `Forwarding.LinkedJumps` | libsponge/router.cc:109-132 | in a well-linked table no jump passes over a longer match |
| `RouteOrder.AddSure` | libsponge/router.cc:32-87 | a safe addition, or the same prefix again, leaves no jump that passes over a longer match |
| `RouteOrder.SafeExactly` | libsponge/router.cc:53-87 | a route added to a table in which no jump does harm leaves every lookup right if and only if the entry that follows it is not inside it, or it is not first and entries inside it leave it nothing beyond that entry; no jump does harm then either |
| `LongestPrefix.LookupIsLinear` | libsponge/router.cc:99-138 | for aligned prefixes of length 0 to 31 added safely, the lookup ends with the route that a linear scan picks, or none |
| `LongestPrefix.LookupInOrder` | libsponge/router.cc:99-138 | in particular when no prefix is added after one inside it |
| `LongestPrefix.SafeOrdersExactly` | libsponge/router.cc:32-138 | every lookup is right after each of a sequence of additions if and only if every addition is safe |
| `LongestPrefix.DefaultLast` | libsponge/router.cc:53-87 | a default route added last breaks some lookup, whatever safe additions came before |
| `LongestPrefix.DefaultLastInstance` | libsponge/router.cc:109-122 | 10.0.0.0/8, then the default route: the lookup of 10.255.255.255 never ends |
| `Routers.Router.LinkBack` | libsponge/router.cc:41-52 | the link of the new entry is the nearest earlier one that ends beyond it |
| `Routers.Router.LinkForward` | libsponge/router.cc:58-87 | the relinking loop ends and does what the function on values does, whatever the threshold |
| `Routers.Router.AddRoute` | libsponge/router.cc:24-88 | any addition keeps the shape of the table, a safe one keeps lookups right |
| `Routers.Follow` | libsponge/router.cc:99-132 | the lookup loop ends at the longest match |
| `Routers.Router.RouteOneDatagram` | libsponge/router.cc:91-139 | time to live, and the interface of the longest match with its next hop, or with the destination itself where the route has no hop; nothing if no route matches or the time to live is over |
| `Resolution.ArpSpacing` | libsponge/network_interface.cc:26-68 | in every run any two ARP frames towards the same IP address are more than 5 s apart |
| `Resolution.Direction` | libsponge/network_interface.cc:74-161 | in every run every datagram sent goes to the address in the most recent accepted ARP of its own next hop, at most 30 s old |
| `Resolution.DirectSend` | libsponge/network_interface.cc:74-88 | in every run a datagram goes out at once, to the address last heard of its hop, exactly when that was at most 30 s ago, and waits otherwise |
| `Resolution.Requests` | libsponge/network_interface.cc:26-88 | in every run a datagram for a hop not heard within 30 s makes the interface send exactly one frame, a broadcast request with its own addresses as sender and the hop as target, unless an ARP frame to the hop was sent in the last 5 s, or the clock is at most 5 s and the hop was heard before anything was sent to it; then none |
| `Resolution.Replies` | libsponge/network_interface.cc:126-147 | in every run an ARP request that concerns the interface is answered with exactly one frame to the asker, under the same condition, and with none otherwise |
| `Resolution.Releases` | libsponge/network_interface.cc:139-158 | in every run, after an ARP reply that concerns the interface its sender is known and nothing waits for it |
| `Resolution.Conservation` | libsponge/network_interface.cc:74-158 | in every run every pair of hop and datagram handed in is waiting or was sent on behalf of that hop, exactly once |
| `NetworkInterfaces.NetworkInterface.SendArp` | libsponge/network_interface.cc:26-68 | the object does what the function on values does; which frames that sends over runs is `Resolution.Requests` and `Resolution.Replies` |
| `NetworkInterfaces.NetworkInterface.SendDatagram` | libsponge/network_interface.cc:74-88 | the object does what the function on values does |
| `NetworkInterfaces.NetworkInterface.Flush` | libsponge/network_interface.cc:142-146 | exactly the datagrams that wait for the hop go out, in order, and are forgotten |
| `NetworkInterfaces.NetworkInterface.RecvFrame` | libsponge/network_interface.cc:101-161 | the object does what the function on values does, and hands up exactly the datagram in a frame to its own address |
| `NetworkInterfaces.NetworkInterface.Tick` | libsponge/network_interface.cc:164 | time passes |
| `Checksums.AddSplits` | libsponge/util/util.cc:89-98 | how the data is split across calls does not matter |
| `Checksums.Fold` | libsponge/util/util.cc:100-108 | the representative of a sum is congruent to it modulo 65535 and zero only for zero |
| `Checksums.FilledPasses` | libsponge/util/util.cc:100-108 | data whose zero checksum field has been filled in has checksum zero |
| `Checksums.InternetChecksum.Add` | libsponge/util/util.cc:89-98 | the sum of 16-bit words, for even and odd lengths, in 32-bit arithmetic |
| `Checksums.InternetChecksum.Value` | libsponge/util/util.cc:100-108 | the folding loop ends at the complement of the one's-complement representative |
| `Parsing.PutTakeAll` | libsponge/util/parser.cc:26-60 | integers written one after the other are read back in order |
| `Parsing.NetParser.ParseInt` | libsponge/util/parser.cc:26-43 | the big-endian integer and the rest, or zero and an error that stays |
| `Parsing.NetParser.RemovePrefix` | libsponge/util/parser.cc:45-51 | the rest after n bytes, or an error |
| `Parsing.UnparseInt` | libsponge/util/parser.cc:53-60 | the big-endian bytes are appended |
| `TCPCodec.HeaderParsed` | libsponge/tcp_helpers/tcp_header.cc:17-78 | a header of 5 to 15 words is parsed back field by field, its padding skipped |
| `TCPCodec.Layout` | libsponge/tcp_helpers/tcp_header.cc:51-78 | every field at its place and every flag at its bit, as section 3.1 of RFC 793 lays them out |
| `TCPCodec.Accepted` | libsponge/tcp_helpers/tcp_segment.cc:12-23 | bytes are accepted if and only if their checksum is zero and they hold 20 bytes and the announced header; the payload is what follows |
| `TCPCodec.SegmentRoundTrip` | libsponge/tcp_helpers/tcp_segment.cc:12-45 | a segment that fits a datagram passes its checksum and comes back with the same fields and payload |
| `IPCodec.HeaderPasses` | libsponge/tcp_helpers/ipv4_header.cc:68-110 | a written header has its advertised size and passes its checksum |
| `IPCodec.Layout` | libsponge/tcp_helpers/ipv4_header.cc:78-110 | every field at its place, as section 3.1 of RFC 791 lays them out |
| `IPCodec.HeaderVerdict` | libsponge/tcp_helpers/ipv4_header.cc:23-75 | a header is found good if and only if version, sizes and announced length fit the bytes and the checksum over its advertised size is zero; what is left after it in either case |
| `IPCodec.Accepted` | libsponge/tcp_helpers/ipv4_datagram.cc:11-21 | since the verdict is discarded, a datagram is accepted if and only if version and sizes fit, or what follows its first 20 bytes has the announced length; its checksum plays no part |
| `IPCodec.PseudoCounts` | libsponge/tcp_helpers/ipv4_header.cc:112-131 | the pseudo-header checksum is the sum of the words of the twelve bytes of section 3.1 of RFC 793 |
| `IPCodec.DatagramRoundTrip` | libsponge/tcp_helpers/ipv4_datagram.cc:11-41 | a well-formed datagram comes back with the same fields and payload |
| `TCPOverIP.RoundTrip` | libsponge/tcp_helpers/tcp_over_ip.cc:26-90 | wrapped, written, parsed and unwrapped at the mirrored endpoint, or at a listening one for a SYN, a segment comes back the same, and the listener then mirrors the sender |
| `TCPOverIP.ChecksumSent` | libsponge/tcp_helpers/tcp_over_ip.cc:75-90 | the pseudo-header bytes of a wrapped segment followed by its payload have checksum zero, starting from nothing |
| `TCPOverIP.ChecksumHeeded` | libsponge/tcp_helpers/tcp_over_ip.cc:26-71 | only a datagram for which that holds yields a segment, and only one between the two endpoints that the adapter has or now takes on |
| `TCPOverIP.TCPOverIPv4Adapter.UnwrapTcpInIp` | libsponge/tcp_helpers/tcp_over_ip.cc:26-71 | every test in its order, and the change of a listening adapter |
| `TCPOverIP.TCPOverIPv4Adapter.WrapTcpInIp` | libsponge/tcp_helpers/tcp_over_ip.cc:75-90 | ports, addresses and length set, payload checksummed; what the checksum means is `TCPOverIP.ChecksumSent` |

## Left out

- Sockets, file descriptors, the event loop, TUN/TAP devices, the lossy adapters and `TCPSpongeSocket`: plumbing over system calls; loss is the network's freedom in `Network`.
- `Buffer` and `BufferList` (libsponge/util/buffer.cc): payloads are byte sequences, sharing and reference counts are not modelled.
- Ethernet and ARP codecs: frames carry parsed messages or a mark that parsing failed; fixed-width copies would only add easy members.
- `Router::route` and the queues between interfaces: a loop over `RouteOneDatagram`, which returns the interface and next hop instead of calling the interface.
- Longest-prefix claims for /32 routes and unaligned prefixes: the skip at libsponge/router.cc:77 may not move past a /32, and keys hold the unmasked prefix.
- "A bad header is always rejected": false, since the code discards the verdict; `IPCodec.Accepted` and `TCPCodec.Accepted` give the exact conditions.
- "Every ARP request is answered": false, since replies share the 5 s limit; `Resolution.Replies` gives the exact condition. In-order release over all hops: only replies release what waits.
- The official TCP state names for arbitrary peers: an acknowledgment before any SYN reaches the sender.
- Segments forged by third parties in the two-endpoint world: only packets of the peer arrive there; `ConnectionRuns` and `ConnectionProofs` hold for arbitrary segments.
- StreamReassemblers.Clip: requires that first index, room and length together stay below 2^64, where the source's sums would wrap; `Network.WindowFits` shows that runs do.
- StreamReassemblers.StreamReassembler.PushSubstring: requires a window edge plus data length below 2^64, for the same reason.
- TCPReceivers.TCPReceiver.SegmentReceived: requires a window edge plus payload below 2^64, for the same reason.
- TCPConnections.TCPConnection.SegmentReceived: requires a window edge plus payload below 2^64, for the same reason.
- Routers.Router.AddRoute: requires an aligned prefix of length at most 31, because the loop of the source need not end on a /32, and an unmasked prefix is not the block it stands for.
- Routers.Follow: requires that no jump does harm, because the loop of the source need not end otherwise (`LongestPrefix.DefaultLastInstance`).
- Routers.Router.RouteOneDatagram: requires a table built by safe additions, for the same reason.
- TCPCodec.HeaderParsed: the parser is a value that is passed on, where the source updates it in place; `NetParser` is the object.
- IPCodec.DatagramRoundTrip: the parser is a value that is passed on, where the source updates it in place.
- StreamReassemblers.Place: works on a sequence of intervals that is returned, where the source updates map entries in place; the object's field holds the result.
- Receiving.SegmentTakes: for numbers below 2^64, where the counters of the source do not wrap.
- Sending.FillKeeps: counters are unbounded; with streams of fewer than 2^63 bytes the 64-bit counters of the source do not wrap.
- Progress.NeverStuck: says that a continuation exists, not that every fair schedule finds it; after the eighth retransmission only `Progress.DeliveryProgresses` applies, since the next timeout is a reset.
