# A verified model of the sponge TCP/IP stack

This project models the data path of sponge, a user-space TCP/IP stack, in Dafny 4.11 and proves what
it keeps over every run: the ring buffer, the reassembler, 32-bit sequence numbers, the TCP receiver,
the TCP sender with its retransmission timer, the complete endpoint with its shutdown, two endpoints
over a network that drops, duplicates and reorders, the checksummed wire formats, the ARP cache and the
longest-prefix router.

`dafny verify dfyconfig.toml` checks everything.

## How it is built

Every component comes in two layers.

- A value layer: a datatype for the state and a pure function for each operation (`Reassembly`,
  `Reception`, `Sending`, `ConnectionSteps`, `AddressResolution`, `Routing`, ...). Runs, invariants and
  the main theorems are about this layer.
- An object layer: a class with the fields and loops of the original (`ByteStream`,
  `StreamReassembler`, `TcpReceiver`, `RetransmissionTimer`, `TcpSender`, `TcpConnection`, `NetParser`,
  `InternetChecksum`, `NetworkInterface`, `Router`). Each method is proved to take `View()`, the value
  of the object, to what the value layer says.

Some state is history that the original does not store: `ByteQueue.taken` (everything ever read),
`Sender.log` (every segment made), `Sender.maxAck` (the greatest acknowledgment accepted),
`Connection.acks` (every acknowledgment sent) and the fields of `Trace`. In the classes these are ghost
fields; no operation branches on them.

The network (`Network`) is the set of all segments ever sent in each direction. Any of them may arrive
at any time, any number of times, or never. The one restriction on a delivery, `Deliverable`, is that
the segment's absolute position, and that of its acknowledgment, are less than 2^31 away from the number
they are compared with. `ShortRunsDeliverEverything` shows that this excludes nothing while fewer than
2^31 sequence numbers are in use, and `RecentIsDeliverable` that below 2^64 it excludes only copies whose
data or acknowledgment is superseded.

## Where the code and its documentation differ

The model follows the code.

- `StreamReassembler` promises to stay within its capacity. Bytes beyond the window break that
  (`CapacityCanBeExceeded`), because in-order bytes are accepted without regard to what is waiting, and
  the free space is then computed with a 64-bit wrap-around. `CapacityExactly` says when a push leaves
  the bound in place, whatever was stored before. Inside the window the promise always holds
  (`RunIsExact`), and two endpoints keep each other inside it (`MemoryIsBounded`).
- `unwrap` promises the closest preimage. In the top 2^32 of the 64-bit range it can wrap around instead
  (`UnwrapOverflows`); `UnwrapIsNearest` says exactly when.
- An old acknowledgment moves the sender's `_ackno` back. An endpoint, whether it closes passively or
  lingers, can then close without an error and without ever having sent its FIN (`ClosesWithoutFin`).
  `ClosesWithoutFinExactly` says when ending the input can lead there, and `ClosesCleanly` holds of every
  other run.
- The official states of TCP do not cover every combination that an endpoint can reach, such as an
  acknowledgment before the peer's SYN (`BareAckHasNoName`), or a close without a FIN
  (`StaleCloseHasNoName`). `NamesExactly` says which have no name while the counts of `TCPState` are
  telling. `NamesAreTrueExactly` says, of every run, when the names are right; a byte written behind the
  FIN makes a closing endpoint look established (`LateByteLooksEstablished`).
- `TCPState` compares with a 32-bit count of written bytes; from 2^32 bytes on it can report a FIN that
  was not sent (`SummaryCanBeWrong`). It also takes back a FIN that was sent when the stream accepts
  another byte behind it (`LateByteHidesFin`). `SummaryMatchesHistory` says that these are all.
- A header that announces less than its minimum length is reported by the header parser, but the segment
  parser does not look at the report (`ShortHeaderIsAccepted`, `TcpWire.AcceptsExactly`).
- The datagram parser does not look at the report of the IPv4 header parser either, so that a wrong header
  checksum goes unnoticed (`WrongChecksumIsAccepted`, `Ipv4Wire.AcceptsExactly`).
- `ByteStream::write` does not check for the end of input. Bytes written after it are still sent while
  the FIN is held back, but those that are written after the FIN are lost (`LateByteIsLost`);
  `DeliveredExactly` says that the peer lacks just these.
- A network interface loses a datagram in two ways: it drops one that is sent while there is an entry
  without an address for its next hop (`SecondIsDropped`), and it overwrites a waiting one when another is
  sent after the request has expired (`FirstIsDisplaced`). `LosesNothingExactly` says that these are all.

## Model

| member | source | states |
|---|---|---|
| `WrappingIntegers.UnwrapIsPreimage` | lab/libsponge/wrapping_integers.cc:31-42 | for every 64-bit checkpoint the result of unwrap is a 64-bit number that wraps back to the given one |
| `WrappingIntegers.UnwrapIsNearest` | lab/libsponge/wrapping_integers.cc:31-42 | no 64-bit preimage is strictly closer to the checkpoint, if and only if the checkpoint is not in the top block with the same-block preimage more than 2^31 below it |
| `WrappingIntegers.UnwrapOverflows` | lab/libsponge/wrapping_integers.cc:31-42 | at checkpoint 2^64 - 1 the number zero is unwrapped to 0, though 2^64 - 2^32 is a preimage |
| `WrappingIntegers.UnwrapInvertsExactly` | lab/libsponge/wrapping_integers.cc:16-42 | unwrap inverts wrap if and only if the position is less than 2^31 from the checkpoint, or exactly 2^31 in the same block, or beyond the checkpoint in the lowest block, or in the lowest block where the top one overflows into it |
| `WrappingIntegers.UnwrapInvertsWrap` | lab/libsponge/wrapping_integers.cc:16-42 | unwrap inverts wrap for every position less than 2^31 away from the checkpoint |
| `WrappingIntegers.UnwrapTie` | lab/libsponge/wrapping_integers.cc:31-42 | at distance exactly 2^31 the round trip can fail, so the bound is sharp |
| `ByteQueues.RunIsFifo` | lab/libsponge/byte_stream.cc:18-68 | over any interleaving of writes, reads and end of input: bytes in equal bytes out plus bytes held, in order, and never more than the capacity |
| `ByteStreams.ByteStream.constructor` | lab/libsponge/byte_stream.cc:15-16 | a new ring buffer is an empty queue of the given capacity |
| `ByteStreams.ByteStream.Write` | lab/libsponge/byte_stream.cc:18-28 | the ring buffer accepts exactly min(length, free space) bytes and appends them to the queue; the tail stays (head + size) mod capacity |
| `ByteStreams.ByteStream.PeekOutput` | lab/libsponge/byte_stream.cc:31-40 | returns the first min(len, size) bytes of the queue, across the wrap-around |
| `ByteStreams.ByteStream.PopOutput` | lab/libsponge/byte_stream.cc:43-48 | removes the first min(len, size) bytes, for a capacity above zero |
| `ByteStreams.ByteStream.Read` | lab/libsponge/byte_stream.cc:52-63 | is peeking followed by popping |
| `ByteStreams.ByteStream.EndInput` | lab/libsponge/byte_stream.cc:65-68 | marks the end of input and changes nothing else |
| `ByteStreams.ByteStream.Observe` | lab/libsponge/byte_stream.cc:70-82 | the accessors agree with the queue, and the two 32-bit counters differ by the buffer size modulo 2^32 |
| `StreamReassemblers.StreamReassembler.PushSubstring` | lab/libsponge/stream_reassembler.cc:20-77 | the loops over the ordered map and the ring buffer refine the step function Push, and `_unassembled_bytes` is the sum of the stored sizes |
| `StreamReassemblers.StreamReassembler.DrainWaiting` | lab/libsponge/stream_reassembler.cc:29-37 | writes out every chunk that has become contiguous and erases it |
| `StreamReassemblers.StreamReassembler.StoreWaiting` | lab/libsponge/stream_reassembler.cc:40-73 | merges with every chunk it touches and keeps what the 64-bit free-space computation allows |
| `StreamReassemblers.StreamReassembler.MergeRight` | lab/libsponge/stream_reassembler.cc:42-52 | takes every chunk reached from the left out of the map and appends what it adds |
| `StreamReassemblers.StreamReassembler.MergeLeft` | lab/libsponge/stream_reassembler.cc:53-69 | takes the chunk before the index out of the map if it reaches it, and prepends what it adds |
| `Reassembly.PushKeepsShape` | lab/libsponge/stream_reassembler.cc:20-77 | whatever is pushed: entries stay sorted with strict gaps, every key is beyond `_nidx`, and `_nidx` counts the bytes written out |
| `Reassembly.PushIsSafe` | lab/libsponge/stream_reassembler.cc:20-77 | a push of a piece of a stream S, in or out of the window, keeps every entry a piece of S, the output S[0.._nidx], and the input ended exactly when the end was seen and all of S is out |
| `Exactness.RunIsSafe` | lab/libsponge/stream_reassembler.cc:20-77 | the same over every run of pushes and reads, for any order, overlap and duplication |
| `Exactness.PushIsExact` | lab/libsponge/stream_reassembler.cc:26-73 | a push that ends inside the window adds exactly its own indices to those held |
| `Exactness.RunIsExact` | lab/libsponge/stream_reassembler.cc:26-73 | over every run inside the window: a byte is held if and only if it was pushed, `_nidx` is the least index never pushed, and unassembled plus buffered bytes stay within the capacity |
| `Exactness.CapacityExactly` | lab/libsponge/stream_reassembler.cc:20-77 | for any stored state, a push leaves unassembled plus buffered bytes within the capacity if and only if: out of order, the chunks it is not merged with fit besides the unread bytes; in order, the chunks it does not reach fit between the new end of the output and the end of the window |
| `Exactness.StoredChunk` | lab/libsponge/stream_reassembler.cc:70-73 | how much of a stored string is kept: what fits besides the rest, or, with more stored than the capacity, 2^64 minus the excess |
| `Exactness.DrainReaches` | lab/libsponge/stream_reassembler.cc:29-37 | draining takes out exactly the chunks that start at or before `_nidx`, and writes up to the end of the last of them or to the end of the window |
| `Exactness.StoreStaysWithin` | lab/libsponge/stream_reassembler.cc:40-73 | so storing out-of-order bytes never breaks the bound, in or out of the window |
| `Exactness.CapacityCanBeExceeded` | lab/libsponge/stream_reassembler.cc:26-73 | two concrete pushes after which more than the capacity is stored |
| `Reception.ReceiveKeepsInv` | lab/libsponge/tcp_receiver.cc:13-27 | any segment keeps the receiver's invariant and never moves the ackno or the right edge of the window back |
| `ReceiverRuns.WindowReachesEdge` | lab/libsponge/tcp_receiver.cc:25-35 | after the SYN, ackno plus window is 1 + capacity + bytes read, plus 1 once ended |
| `ReceiverRuns.WindowNeverShrinks` | lab/libsponge/tcp_receiver.cc:13-35 | over every run of arrivals and reads the ackno and the right edge never decrease |
| `Reception.ReceiveAtPosition` | lab/libsponge/tcp_receiver.cc:13-27 | a segment less than 2^31 away from the ackno is handed to the reassembler at the position it was cut from |
| `Reception.ReceiveIsSafe` | lab/libsponge/tcp_receiver.cc:13-27 | a segment of the stream W keeps the receiver in agreement with W and with the peer's ISN |
| `Reception.ReceiveMakesProgress` | lab/libsponge/tcp_receiver.cc:19-26 | a segment at or before the ackno that fits the open window is acknowledged to its end |
| `TcpReceivers.TcpReceiver.SegmentReceived` | lab/libsponge/tcp_receiver.cc:13-27 | refines Receive: SYN and ISN, unwrap, the window test, the push, the new ackno |
| `TcpReceivers.TcpReceiver.Ackno` | lab/libsponge/tcp_receiver.cc:29-33 | nothing before the SYN, then the wrapped ackno |
| `TcpReceivers.TcpReceiver.WindowSize` | lab/libsponge/tcp_receiver.cc:35-35 | reaches from the ackno to the right edge |
| `TcpSenders.RetransmissionTimer.TickHandle` | lab/libsponge/tcp_sender.cc:16-29 | on a timeout queues the oldest outstanding segment, which exists, and doubles the timeout in 32 bits unless the window is closed |
| `TcpSenders.RetransmissionTimer.AckHandle` | lab/libsponge/tcp_sender.cc:31-46 | pops what is acknowledged, returns its length, clears the counter, and resets the timeout only if something was popped |
| `TcpSenders.TcpSender.FillWindow` | lab/libsponge/tcp_sender.cc:58-81 | the loop terminates and refines Fill up to ackno + max(window, 1) |
| `TcpSenders.TcpSender.CutSegment` | lab/libsponge/tcp_sender.cc:62-75 | the next segment: SYN if nothing was sent, as many bytes as fit, FIN if the stream is used up and a number is left |
| `TcpSenders.TcpSender.RecordSent` | lab/libsponge/tcp_sender.cc:61-79 | counts, numbers, queues and times the new segment |
| `TcpSenders.TcpSender.AckReceived` | lab/libsponge/tcp_sender.cc:85-92 | ignores acknowledgments of the future; the flight size never underflows |
| `TcpSenders.TcpSender.Tick` | lab/libsponge/tcp_sender.cc:95-97 | passes time to the timer with the current window |
| `TcpSenders.TcpSender.SendEmptySegment` | lab/libsponge/tcp_sender.cc:101-106 | queues an empty segment at the next sequence number without timing it |
| `Sending.SendOne` | lab/libsponge/tcp_sender.cc:60-80 | every round of the fill loop uses at least one sequence number and none beyond the limit |
| `SenderInvariant.FillKeepsInv` | lab/libsponge/tcp_sender.cc:58-81 | filling keeps the sender's invariant, only extends its history, and sends new bytes only behind the old ones and below the limit |
| `SenderInvariant.AcceptAckKeepsInv` | lab/libsponge/tcp_sender.cc:31-46 | any accepted acknowledgment, old or new, keeps the invariant: what remains outstanding is what no accepted acknowledgment covers |
| `SenderRuns.OutstandingQueue` | lab/libsponge/tcp_sender.cc:16-92 | in every run the outstanding segments tile the numbers up to `_next_seqno` without gap or overlap, are exactly the sent ones not yet covered, sum to `_bytes_in_flight`, and the timer runs exactly while there is one |
| `SenderRuns.SegmentationIsLossless` | lab/libsponge/tcp_sender.cc:58-81 | in every run the segments made have consecutive numbers, their payloads concatenate to the bytes taken from the stream, SYN is on the first only, FIN on at most one, behind the last byte |
| `SenderRuns.FillSendsAllThatFits` | lab/libsponge/tcp_sender.cc:58-81 | a fill takes exactly the bytes there is room for, and sends the FIN if and only if the input has ended and a number is left behind the last byte |
| `Outgoing.FillQueuesAll` | lab/libsponge/tcp_sender.cc:58-81 | a fill queues exactly the segments it makes, in the order of their numbers |
| `Outgoing.FillPacks` | lab/libsponge/tcp_sender.cc:66-69 | every segment of a fill but the last carries 1000 bytes |
| `Backoff.TickBacksOff` | lab/libsponge/tcp_sender.cc:16-29 | one tick keeps: after k expirations the counter is k, the timeout is doubled k times in 32 bits, and elapsed plus remaining time makes up all timeouts so far |
| `Backoff.BackoffOverRuns` | lab/libsponge/tcp_connection.cc:95-104 | over any run with an open window, no accepted acknowledgment and a counter that starts at zero, whatever the timeout: the counter is the number of timeouts in the run, that many timeouts have passed, and the reset comes exactly with the ninth |
| `Backoff.ResetTakesTime` | lab/libsponge/tcp_connection.cc:95-104 | in closed form, while the doubling fits 32 bits: after k timeouts the timeout is base * 2^k, and the reset takes what was left of the first timeout and 510 * base ms |
| `Backoff.FreshResetTakesTime` | lab/libsponge/tcp_connection.cc:95-104 | with a fresh timer k timeouts take at least initial * (2^k - 1) ms and the reset at least 511 * initial ms |
| `Timing.AckRestartsExactly` | lab/libsponge/tcp_sender.cc:31-46 | every accepted acknowledgment clears the counter; both timeouts become the initial one if it covers a sent segment that none before it has covered, and otherwise stay |
| `Timing.AckIsTaken` | lab/libsponge/tcp_sender.cc:85-92 | an arrival sets the sender's ackno and window to those it brings if they are accepted, and leaves them alone otherwise |
| `Timing.RestartTakesTime` | lab/libsponge/tcp_connection.cc:53-104 | from an acknowledgment that covers something new on, k timeouts take at least initial * (2^k - 1) ms and a reset at least 511 * initial ms |
| `Timing.ExpiresInTime` | lab/libsponge/tcp_sender.cc:16-29 | over any run without an accepted acknowledgment a running timer has not expired if and only if less time has passed than was left, and what is left is exactly the difference |
| `Timing.ClosedWindowNeverGivesUp` | lab/libsponge/tcp_sender.cc:19-24 | over any run with a closed window and no accepted acknowledgment the counter and the timeout stay, each expiration takes a whole timeout, and no tick resets |
| `StateSummary.SummaryMatchesHistory` | lab/libsponge/tcp_helpers/tcp_state.cc:94-110 | for every sender the counter comparisons give the state told from the history (nothing acknowledged, FIN sent, all acknowledged) if and only if the stream is broken, nothing is acknowledged, or: before the FIN, the stream is not used up or has fewer than 2^32 bytes; after it, the stream is still used up |
| `StateSummary.SummaryIsRight` | lab/libsponge/tcp_helpers/tcp_state.cc:94-110 | the same over every run: after the FIN, if and only if no byte was accepted since it was sent |
| `WrongSummaries.SummaryCanBeWrong` | lab/libsponge/tcp_helpers/tcp_state.cc:94-110 | a run of 2^32 bytes, byte by byte, after which the summary is FIN_SENT and no FIN was sent |
| `WrongSummaries.LateByteHidesFin` | lab/libsponge/tcp_helpers/tcp_state.cc:94-110 | a run that sends its FIN, writes one byte, and is summarized as SYN_ACKED |
| `StateSummary.NothingAckedMeansAllInFlight` | lab/libsponge/tcp_helpers/tcp_state.cc:99-100 | `next_seqno` equals `bytes_in_flight` exactly while no sent segment has been acknowledged completely |
| `OfficialStates.FinishedSummary` | lab/libsponge/tcp_helpers/tcp_state.cc:76-110 | under the invariant of every run, both streams finished, nothing in flight and no error summarizes to TIME_WAIT while active and lingering, and to CLOSED once inactive, if the FIN was sent; without it to SYN_ACKED, unless 2^32 bytes cover that up |
| `OfficialStates.ClosesAsClosedExactly` | lab/libsponge/tcp_helpers/tcp_state.cc:17-110 | in every run, the step that goes inactive without an error ends in the official state CLOSED if and only if the FIN is sent by then or at least 2^32 bytes were written |
| `OfficialStates.CleanCloseIsClosed` | lab/libsponge/tcp_helpers/tcp_state.cc:17-80 | so it does over every run that never ends the input without room for the FIN |
| `OfficialStates.ResetIsReset` | lab/libsponge/tcp_helpers/tcp_state.cc:61-66 | an arriving reset, and a tick that passes the retransmission limit, lead to the official state RESET |
| `OfficialStates.NamesExactly` | lab/libsponge/tcp_helpers/tcp_state.cc:17-110 | after every run, while the counts are telling: the summary is that of an official state if and only if the history is the one its name stands for, and of none if and only if it is in one of four listed families of active endpoints, or inactive without an acknowledged FIN or without the peer's |
| `OfficialStates.NamesAreTrueExactly` | lab/libsponge/tcp_helpers/tcp_state.cc:17-110 | after every run: the summary gives exactly the names that the history gives if and only if the endpoint is broken, nothing is acknowledged, the counts are telling, or no name is at stake (active before the peer's SYN, or inactive and not finished on both sides) |
| `OfficialStates.StepKeepsLifecycle` | lab/libsponge/tcp_connection.cc:14-115 | every operation keeps: a SYN received is answered, lingering ends only after the peer's end, both streams break together and only with the connection |
| `OfficialStates.StepClosesInFull` | lab/libsponge/tcp_connection.cc:26-110 | every operation that does not end the input without room for the FIN keeps: an unbroken inactive endpoint has its FIN acknowledged and the peer's received |
| `OfficialStates.BareAckHasNoName` | lab/libsponge/tcp_helpers/tcp_state.cc:17-110 | connecting and then an acknowledgment without a SYN gives a summary of no official state |
| `OfficialStates.StaleCloseHasNoName` | lab/libsponge/tcp_helpers/tcp_state.cc:17-110 | the run that closes without a FIN ends inactive and unbroken in SYN_ACKED, which is no official state |
| `OfficialStates.LateByteLooksEstablished` | lab/libsponge/tcp_helpers/tcp_state.cc:94-110 | any endpoint in FIN_WAIT_1 or FIN_WAIT_2 that accepts another byte is summarized as ESTABLISHED |
| `TcpConnections.TcpConnection.UpdateQueue` | lab/libsponge/tcp_connection.cc:33-44 | moves the sender's segments out in order, each with the current ackno and 16-bit window |
| `TcpConnections.TcpConnection.SendReset` | lab/libsponge/tcp_connection.cc:14-25 | leaves only the reset in the queue, marks both streams broken and goes inactive |
| `TcpConnections.TcpConnection.TryCleanClosed` | lab/libsponge/tcp_connection.cc:26-32 | goes inactive exactly if both streams are finished, nothing is in flight, and lingering is over or not needed |
| `TcpConnections.TcpConnection.Arrive` | lab/libsponge/tcp_connection.cc:53-83 | refines SegmentArrives: reset, receiver, acknowledgment, passive close, clean close, reply |
| `TcpConnections.TcpConnection.Answer` | lab/libsponge/tcp_connection.cc:72-82 | answers what takes up sequence numbers, and keep-alive probes |
| `TcpConnections.TcpConnection.Write` | lab/libsponge/tcp_connection.cc:87-92 | writes to the outbound stream and sends what the window allows |
| `TcpConnections.TcpConnection.Elapse` | lab/libsponge/tcp_connection.cc:95-104 | retransmits, resets beyond the retransmission limit, or tries to close |
| `TcpConnections.TcpConnection.EndInput` | lab/libsponge/tcp_connection.cc:106-110 | ends the outbound stream and sends the FIN if it fits |
| `TcpConnections.TcpConnection.Connect` | lab/libsponge/tcp_connection.cc:112-115 | sends the SYN |
| `Outgoing.StepSends` | lab/libsponge/tcp_connection.cc:33-115 | every operation but a tick, a reset and the emptying of the queue puts out exactly the segments it makes, in order, with the ackno and window of the receiver after it |
| `Outgoing.TickSends` | lab/libsponge/tcp_connection.cc:95-104 | a tick puts out nothing, or, if the timeout passes with something in flight, one segment: the one that holds the first number not acknowledged, which starts at next seqno - bytes in flight |
| `Outgoing.ArrivalIsAcknowledged` | lab/libsponge/tcp_connection.cc:53-83 | an arrival that takes up sequence numbers puts out at least one segment, and all it puts out carry the ackno and the 16-bit window of the receiver after it |
| `Outgoing.EmptyReplyExactly` | lab/libsponge/tcp_connection.cc:72-82 | an arrival is answered with an empty segment if and only if it takes up numbers and is not answered with our SYN, or is empty and one before the ackno |
| `Outgoing.GivingUpSendsReset` | lab/libsponge/tcp_connection.cc:14-25 | a tick that passes the retransmission limit leaves one segment in the queue, a reset at next seqno, and breaks both streams |
| `Outgoing.ResetIsNotAnswered` | lab/libsponge/tcp_connection.cc:55-60 | an arriving reset breaks both streams and puts nothing out |
| `Outgoing.StepStreams` | lab/libsponge/tcp_connection.cc:87-110 | only writes add to the outbound stream, all that fits; only reads take from the inbound stream |
| `Outgoing.RunFlushes` | lab/libsponge/tcp_connection.cc:33-44 | over every run the sender's own queue is empty between operations, unless the endpoint was reset |
| `ConnectionInvariant.StepSender` | lab/libsponge/tcp_connection.cc:14-115 | every operation keeps the sender's invariant; after the acknowledgment of an arriving segment the sender's history only grows |
| `ConnectionInvariant.StepReceiver` | lab/libsponge/tcp_connection.cc:14-115 | only arrivals and reads change the receiver, and only its current acknowledgment is sent |
| `ConnectionInvariant.StepKnown` | lab/libsponge/tcp_connection.cc:14-115 | everything queued for the network is a copy of a logged segment with an acknowledgment that was given |
| `Network.ExecKeepsInv` | lab/libsponge/tcp_connection.cc:14-115 | two endpoints over any dropping, duplicating and reordering network keep the joint invariant in every run |
| `Network.EndToEndSafety` | lab/libsponge/tcp_receiver.cc:13-27 | in every reachable state what each side has read is a prefix of what it has reassembled, of what the other side has sent, and of what was written there |
| `Network.ReachableSwap` | lab/libsponge/tcp_connection.cc:14-115 | the two sides are alike: a state with its sides exchanged is reachable as well, so that every result for one direction holds for the other |
| `Network.AckedMeansDeliveredAlways` | lab/libsponge/tcp_sender.cc:85-92 | in every reachable state greatest accepted ackno <= receiver ackno <= next seqno, and a sent FIN with nothing in flight means that the peer's stream has ended and holds everything sent, which is everything written if and only if nothing is left in the outbound stream |
| `CleanShutdown.DeliveredExactly` | lab/libsponge/tcp_sender.cc:58-92 | over every run, a sent FIN with nothing in flight means that the peer's stream has ended and lacks of what was written exactly as many bytes as were accepted after the FIN was sent |
| `CleanShutdown.DeliveredInFull` | lab/libsponge/tcp_sender.cc:58-92 | so it lacks nothing in runs that write nothing after the end of input |
| `LostByte.NothingFollowsFin` | lab/libsponge/tcp_sender.cc:58-81 | once the FIN is sent, no legal continuation delivers more than what was taken from the stream by then |
| `LostByte.LateByteIsLost` | lab/libsponge/byte_stream.cc:18-28 | a run of two endpoints in which everything sent is acknowledged, and the byte written last is not at the peer |
| `Network.MemoryIsBounded` | lab/libsponge/stream_reassembler.cc:70-72 | in every reachable state unassembled plus buffered bytes are within the capacity |
| `Network.NothingIsDropped` | lab/libsponge/tcp_receiver.cc:22-26 | in every reachable state a segment that passes the window test is kept to the last byte |
| `Network.NothingInWindowIsDropped` | lab/libsponge/tcp_receiver.cc:19-26 | in every reachable state every segment that starts before the right edge of the window is kept to the last byte, whether it connects or not |
| `Transmission.MadeIsSent` | lab/libsponge/tcp_connection.cc:33-44 | in every reachable state with an unbroken endpoint, every segment it has ever made is on the network or in its queue |
| `Nearness.StepTight` | lab/libsponge/tcp_sender.cc:58-92 | every operation keeps next seqno within 65535 of the greatest accepted ackno, and every segment made at 1002 numbers or fewer and free of resets |
| `Nearness.OldestConnects` | lab/libsponge/tcp_sender.cc:16-46 | in every reachable state the oldest outstanding segment starts at or before the receiver's ackno |
| `Nearness.OldestIsAcknowledged` | lab/libsponge/tcp_sender.cc:16-46 | in every reachable state below 2^64 numbers, delivering the oldest outstanding segment to a large enough open window acknowledges it |
| `Transmission.RetransmissionMakesProgress` | lab/libsponge/tcp_sender.cc:16-46 | in every reachable state below 2^64 numbers, the segment that a timeout puts out may be delivered, and delivering it to a large enough open window moves the receiver's ackno beyond everything acknowledged so far |
| `Transmission.RoundTripMakesProgress` | lab/libsponge/tcp_connection.cc:53-104 | in every such state the peer's answer to it may be delivered as well, and then the greatest accepted ackno has grown |
| `Nearness.RecentIsDeliverable` | lab/libsponge/wrapping_integers.cc:31-42 | in every reachable state below 2^64 numbers, any copy whose data is not acknowledged to beyond its end, with an acknowledgment not older than one accepted, may be delivered |
| `Network.ShortRunsDeliverEverything` | lab/libsponge/wrapping_integers.cc:31-42 | while fewer than 2^31 numbers are in use everything on the network may be delivered |
| `FlowControl.FlowEvolves` | lab/libsponge/tcp_sender.cc:58-81 | whatever the sender sends next ends inside the receiver's window, or is the single byte that probes a closed one |
| `FlowControl.ReceivedInWindow` | lab/libsponge/tcp_receiver.cc:22-26 | a segment the receiver looks at adds exactly its own bytes, so the window is never overrun |
| `CleanClose.StepStrands` | lab/libsponge/tcp_connection.cc:53-115 | whatever the order of acknowledgments, a used-up stream with nothing in flight and no FIN arises exactly by ending the input when all is acknowledged and ackno + max(window, 1) <= next seqno |
| `CleanClose.SendsAllItMay` | lab/libsponge/tcp_connection.cc:62-115 | after every run, bytes or an end that wait to be sent wait for the window alone: next seqno is at least ackno + window, or ackno + 1 if the window is closed |
| `CleanClose.ClosesExactly` | lab/libsponge/tcp_connection.cc:26-104 | an endpoint that is not reset goes inactive exactly at the arrivals and ticks after which both streams are finished, nothing is in flight, and lingering is over or not needed |
| `CleanClose.LingerExactly` | lab/libsponge/tcp_connection.cc:26-83 | after every run, lingering is not needed if and only if at some arrival the peer's stream was finished and read while our own was still open |
| `CleanClose.ClosesCleanly` | lab/libsponge/tcp_connection.cc:26-110 | in every run that never ends the input in that state, going inactive without an error means: FIN sent and acknowledged, inbound stream delivered and read to its end, and a passive close or ten timeouts of silence |
| `CleanClose.OrderedAcksLeaveRoom` | lab/libsponge/tcp_sender.cc:85-92 | runs whose accepted acknowledgments never go back are among them |
| `CleanShutdown.CleanCloseIsComplete` | lab/libsponge/tcp_connection.cc:26-110 | seen from both ends of the network: at a clean close the peer holds everything written here, and the reader here got everything the peer sent |
| `StaleAck.ClosesWithoutFin` | lab/libsponge/tcp_connection.cc:26-110 | a concrete run with a repeated acknowledgment closes without an error and without a FIN |
| `StaleAck.ClosesWithoutFinExactly` | lab/libsponge/tcp_connection.cc:26-110 | after any run, ending the input can lead to a close without an error and without a FIN if and only if all is acknowledged and ackno + max(window, 1) <= next seqno, and the receiver has a capacity |
| `StaleAck.ExhaustedClosesWithoutFin` | lab/libsponge/tcp_connection.cc:95-110 | from such a state, passive or lingering, ending the input and a tick close without a FIN if and only if the inbound stream is finished and lingering is over or not needed |
| `StaleAck.EndInputSendsFin` | lab/libsponge/tcp_connection.cc:106-110 | ending the input sends the FIN in the same call if and only if the window has a number left behind all unsent bytes |
| `Checksums.InternetChecksum.Add` | lab/libsponge/util/util.cc:89-98 | adds the bytes as 16-bit words in 32 bits and keeps the parity |
| `Checksums.InternetChecksum.Value` | lab/libsponge/util/util.cc:100-108 | the complement of the folded sum |
| `Checksums.SumConcat` | lab/libsponge/util/util.cc:89-98 | adding in pieces is adding at once, also across odd boundaries |
| `Checksums.FoldKeepsRemainder` | lab/libsponge/util/util.cc:100-108 | folding keeps the sum modulo 65535, and only zero folds to zero |
| `Checksums.AcceptedSums` | lab/libsponge/util/util.cc:100-108 | the value is zero exactly for positive multiples of 65535 |
| `Checksums.ChecksumCompletes` | lab/libsponge/util/util.cc:100-108 | adding the checksum to its sum gives an accepted sum |
| `Checksums.SingleByteErrorIsDetected` | lab/libsponge/util/util.cc:89-108 | changing any single byte of a string whose 32-bit sum is accepted makes it unacceptable, as long as its length cannot overflow the sum |
| `NetParsers.NetParser.ParseInt` | lab/libsponge/util/parser.cc:26-43 | takes a big-endian integer off the front; after an error zero, and nothing is taken |
| `NetParsers.NetParser.RemovePrefix` | lab/libsponge/util/parser.cc:45-51 | skips bytes, or sets the error and skips nothing |
| `NetParsers.UnparseInt` | lab/libsponge/util/parser.cc:53-60 | appends the big-endian bytes of an integer |
| `NetParsers.IntegerRoundTrip` | lab/libsponge/util/parser.cc:26-60 | an integer that fits is read back as written |
| `NetParsers.FirstIsMostSignificant` | lab/libsponge/util/parser.cc:26-43 | the first byte of a parsed integer has the greatest weight |
| `TcpWire.ParseTcpHeader` | lab/libsponge/tcp_helpers/tcp_header.cc:17-48 | refines ParseHeader: every field, the flags, the options skipped, the error cases |
| `TcpWire.SerializeHeader` | lab/libsponge/tcp_helpers/tcp_header.cc:51-78 | the encoded fields padded to the announced length; short headers are refused |
| `TcpWire.HeaderRoundTrip` | lab/libsponge/tcp_helpers/tcp_header.cc:17-78 | parsing a written header gives back every field and leaves what followed |
| `TcpWire.HeaderLayout` | lab/libsponge/tcp_helpers/tcp_header.cc:17-48 | every field of a parsed header is the big-endian integer, or the bit, at its place in section 3.1 of RFC 793 |
| `TcpWire.ParseTcpSegment` | lab/libsponge/tcp_helpers/tcp_segment.cc:12-23 | refines ParseSegment: checksum first, then header and payload |
| `TcpWire.SerializeSegment` | lab/libsponge/tcp_helpers/tcp_segment.cc:30-45 | the segment with its checksum filled in |
| `TcpWire.SegmentRoundTrip` | lab/libsponge/tcp_helpers/tcp_segment.cc:12-45 | a segment of up to 65535 bytes is accepted when read back and has the same fields and payload |
| `TcpWire.AcceptsExactly` | lab/libsponge/tcp_helpers/tcp_segment.cc:12-23 | which byte strings are accepted: right sum, twenty bytes, and the announced header, unless it announces too little |
| `TcpWire.ShortHeaderIsAccepted` | lab/libsponge/tcp_helpers/tcp_segment.cc:12-23 | twenty zero bytes are accepted, though the header parser calls them too short |
| `TcpWire.CorruptionIsDetected` | lab/libsponge/tcp_helpers/tcp_segment.cc:12-23 | an accepted segment of up to 65535 bytes with any single byte changed fails the checksum |
| `Ipv4Wire.ParseIpv4Header` | lab/libsponge/tcp_helpers/ipv4_header.cc:23-75 | refines ParseHeader: every field and every error case, in the order of the checks |
| `Ipv4Wire.SerializeHeader` | lab/libsponge/tcp_helpers/ipv4_header.cc:78-110 | the encoded fields padded to the announced length; wrong versions and short headers are refused |
| `Ipv4Wire.HeaderLayout` | lab/libsponge/tcp_helpers/ipv4_header.cc:31-47 | every field of a parsed header is the integer, or the bit, at its place in section 3.1 of RFC 791 |
| `Ipv4Wire.ParseIpv4Datagram` | lab/libsponge/tcp_helpers/ipv4_datagram.cc:11-21 | refines ParseDatagram |
| `Ipv4Wire.SerializeDatagram` | lab/libsponge/tcp_helpers/ipv4_datagram.cc:23-41 | the datagram with its header checksum filled in; a wrong payload length is refused |
| `Ipv4Wire.DatagramRoundTrip` | lab/libsponge/tcp_helpers/ipv4_datagram.cc:11-41 | a datagram with a true length field passes every check when read back and is unchanged |
| `Ipv4Wire.AcceptsExactly` | lab/libsponge/tcp_helpers/ipv4_datagram.cc:11-21 | which byte strings are accepted: version, header and total length as announced, or else a remainder as long as the announced payload in 16 bits; the header checksum plays no part |
| `Ipv4Wire.AnyChecksumIsAccepted` | lab/libsponge/tcp_helpers/ipv4_datagram.cc:11-21 | a well-sized datagram with any checksum field is accepted unchanged, while the header parser tells a wrong one from a right one |
| `Ipv4Wire.WrongChecksumIsAccepted` | lab/libsponge/tcp_helpers/ipv4_datagram.cc:11-21 | every such datagram has an encoding that the header parser calls a bad checksum and the datagram parser accepts |
| `Ipv4Wire.SegmentInDatagramRoundTrip` | lab/libsponge/tcp_helpers/ipv4_header.cc:112-131 | a segment inside a datagram survives the trip through both formats, pseudo-header included |
| `Ipv4Wire.PseudoSumIsExact` | lab/libsponge/tcp_helpers/ipv4_header.cc:112-131 | the checksum of a segment starts from the sum over the twelve bytes of the pseudo-header of RFC 793 |
| `NetworkInterfaces.NetworkInterface.SendDatagram` | lab/libsponge/network_interface.cc:32-60 | frames for a cached address, asks for an unknown one, drops while a request is pending |
| `NetworkInterfaces.NetworkInterface.ReceiveFrame` | lab/libsponge/network_interface.cc:63-100 | passes datagrams up, learns from any ARP message, releases the waiting datagram, answers requests |
| `NetworkInterfaces.NetworkInterface.Tick` | lab/libsponge/network_interface.cc:103-113 | every entry ages by the elapsed time or is removed at the end of its life |
| `ArpSafety.ArpIsSafe` | lab/libsponge/network_interface.cc:32-113 | in every run: no datagram waits while its next hop has a usable address, requests for one address are at least 5000 ms apart, every IPv4 frame went to an address learned for its next hop less than 30000 ms before, and every datagram sent is framed, waiting, dropped or displaced, exactly as often as it was sent |
| `ArpSafety.LosesNothingExactly` | lab/libsponge/network_interface.cc:32-113 | a run frames or keeps everything it was given if and only if nothing is sent to a next hop with an entry but no address, and nothing to one without an entry for which a datagram still waits |
| `ArpSafety.SecondIsDropped` | lab/libsponge/network_interface.cc:36-44 | of two datagrams sent at once, the reply releases the first and the second is lost |
| `ArpSafety.FirstIsDisplaced` | lab/libsponge/network_interface.cc:57-58 | of two datagrams sent 5000 ms apart, the reply releases the second and the first is lost |
| `ArpSafety.HistoryIsHonest` | lab/libsponge/network_interface.cc:32-113 | in every run from a new interface, the framings and requests that ArpIsSafe speaks about are the frames of the outbound queue of the interface that the events lead to, in order |
| `AddressResolution.TraceFollowsInterface` | lab/libsponge/network_interface.cc:32-113 | the recorded history does not influence what the interface does, over every run |
| `Resolution.DatagramGetsThere` | lab/libsponge/network_interface.cc:32-100 | request, answer and frame between two interfaces: the one asked for hands up exactly the datagram that was sent, and any other nothing |
| `Resolution.RequestIsUnderstood` | lab/libsponge/network_interface.cc:70-97 | every listener of a request learns the asker's address, only the one asked for answers, and the asker learns that one's address from the answer |
| `Resolution.AnswerGetsBack` | lab/libsponge/network_interface.cc:32-100 | after the request the one asked for can send a datagram back at once, and the asker hands it up |
| `Resolution.FramedIsHandedUp` | lab/libsponge/network_interface.cc:63-69 | in every run, each IPv4 frame put out makes exactly the interface it was framed for hand up the datagram that was sent |
| `Resolution.EntryLivesExactly` | lab/libsponge/network_interface.cc:103-113 | an entry is in the cache exactly until its life is over, over any events that neither send to its address nor bring an ARP message from it |
| `Resolution.LearnedIsUsed` | lab/libsponge/network_interface.cc:36-43 | for less than 30000 ms after an ARP message, datagrams for its sender go out at once and are handed up there |
| `Routers.Router.AddRoute` | lab/libsponge/router.cc:25-32 | the table of masked prefixes stays the table of all rules added |
| `Routers.Router.FindRoute` | lab/libsponge/router.cc:39-48 | the progressively masked loop finds what the naive scan finds |
| `Routing.LookupIsBest` | lab/libsponge/router.cc:25-50 | for any rules in any order the lookup finds the most recently added rule of the greatest matching length |
| `Routing.BestIsLongest` | lab/libsponge/router.cc:35-50 | what the naive scan returns: a matching rule that no matching rule beats in length, or in time among equals; nothing if and only if none matches |
| `Routing.ForwardedExactly` | lab/libsponge/router.cc:35-50 | nothing is forwarded if and only if the TTL is at most one or no rule matches; otherwise one copy with the TTL reduced by one, to the port and next hop of the chosen rule, or to the destination if it has no next hop |
| `Routing.ForwardedInOrder` | lab/libsponge/router.cc:52-61 | datagrams are forwarded one by one in the order in which they were received |
| `Resolution.RoutedGetsThere` | lab/libsponge/router.cc:35-50 | if the address of the next hop is known, exactly the interface of the chosen rule puts out a frame, which makes the next hop hand up the datagram with its TTL reduced |
| `Routers.Router.RouteOneDatagram` | lab/libsponge/router.cc:35-50 | hands a datagram with TTL above one and a route to the right interface and next hop with the TTL reduced, and drops any other |
| `Routers.Router.RouteAll` | lab/libsponge/router.cc:52-61 | empties all queues and forwards each datagram exactly once or not at all, in order, as the naive scan says |

## Left out

- Sockets, file descriptors, TUN and TAP devices, the event loop, address resolution by the host and threads: foreign calls; an IPv4 address is a 32-bit number.
- Printing and debugging output, and the choice of a random ISN, which is a parameter.
- The destructor of an endpoint, which sends the same reset as the retransmission limit.
- 64-bit counters and indices are natural numbers: a connection that uses 2^64 sequence numbers is not modelled. The 64-bit wrap-around is modelled where the code can reach it: in unwrap and in the free-space computation of the reassembler.
- The ordered map of the reassembler is a sequence of entries sorted by key.
- ARP and Ethernet byte formats: frames and ARP messages are datatypes, and a frame carries what its bytes parse to.
- `NetworkInterfaces.NetworkInterface.Tick`: visits a snapshot of the keys, because erasing from the map while iterating over it has no defined meaning in the original.
- `Routers.Router.AddRoute`: a prefix length of zero gives prefix zero, where the original shifts a 32-bit number by 32; lengths above 32 are outside the table.
- `Routers.Router.RouteAll`: rules must name existing interfaces; the original throws otherwise.
- `ByteStreams.ByteStream.PopOutput`: a capacity of zero is excluded, where the original divides by zero.
- Liveness under fairness, beyond the progress of one round trip.
