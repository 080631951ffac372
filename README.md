# A verified model of a small TCP/IP stack's core

This project models four parts of a teaching TCP/IP stack in Dafny and proves properties about them:

- **32-bit wrapping sequence numbers** (`wrapping_integers.dfy`). `Wrap` maps a 64-bit stream offset onto the wire, with a zero point. `Unwrap` picks the 64-bit value congruent to a wire value that lies nearest a checkpoint, following section 3.4 of RFC 9293.
- **The TCP receiver** (`tcp_receiver.dfy`). It learns the zero point from the first SYN, computes the stream index at which each segment's payload goes to the reassembler, and reports the ackno, the window (clamped to 16 bits) and the error flag.
- **The TCP sender** (`tcp_sender.dfy`). It cuts the outgoing stream into segments that fit the peer's window and places SYN and FIN. It keeps the unacknowledged segments in a FIFO, together with the accounting fields `next_seq_`, `ack_seq_` and `numbers_in_flight_`. It retransmits the oldest segment, with exponential backoff driven by a retransmission timer (sections 5.2 to 5.6 of RFC 6298).
- **The network interface** (`network_interface.dfy`). It resolves next-hop IP addresses with ARP (RFC 826). It keeps an IP-to-Ethernet cache, a map of requests recently sent, and a queue of datagrams waiting for an address, and it ages both maps by the milliseconds that pass.

`basics.dfy` holds `Option`, byte and fixed-width integer types. `tcp_messages.dfy` holds the two segment types the sender and receiver exchange.

The receiver, the sender, the retransmission timer and the network interface are classes whose methods update their fields in place. Their loops are Dafny loops with invariants:

- the sender's nested packetising loops in `Push`;
- the acknowledgement loop in `Receive`;
- the network interface's erase-while-iterating flush of the queue;
- the network interface's ageing loops over both maps.

Each method is proved against specification functions: `AckedCount`, `Counted`, `Payloads`, `Kept`, `Released`, `AgeCache` and `AgeRequests`. Lemmas relate those functions to one another and to the properties the code promises.

Outputs are logs. Every frame or segment handed to `transmit` is appended to `transmitted`. Received datagrams go to `received`. Reassembler insertions go to `insertions`. The outgoing byte stream is a sequence of buffered bytes with `closed` and `error` flags. Wire codecs are functions given to the interface: parsing may fail and serialising cannot.

Where the documented design and the code differ, the model follows the code:

- A datagram sent to an unresolved IP while a request for that IP is still recent is dropped, not queued (`src/network_interface.cc:50-51`).
- A received ARP message adds its sender to the cache only when that IP is not cached yet. An existing entry keeps its address and its age (`src/network_interface.cc:96`).
- Only ARP requests clear the suppression entry for their sender (`src/network_interface.cc:98-104`).
- The queue is flushed by any non-request ARP message addressed to this interface's Ethernet address. The code tests the target address, not the opcode (`src/network_interface.cc:129`).
- The stray token on `src/network_interface.cc:68` is read as a plain serialisation of the ARP request.
- The sender's pop test subtracts the segment's own SYN flag (`src/tcp_sender.cc:117`). So the first segment, carrying SYN and payload, is popped by an ackno one short of its end when SYN_ is not discounted. `SynSegmentPoppedOneEarly` exhibits this.

## Model

| member | source | states |
|---|---|---|
| WrappingIntegers.Wrap | src/wrapping_integers.cc:5-10 | the wire value less the zero point is congruent to `n` modulo 2^32 |
| WrappingIntegers.Offset | src/wrapping_integers.cc:15 | the 32-bit difference `raw - zero_point` added back to the zero point gives the raw value |
| WrappingIntegers.Unwrap | src/wrapping_integers.cc:12-25 | the result is congruent, modulo 2^32, to the wire value's offset from the zero point |
| WrappingIntegers.SamePeriod | src/wrapping_integers.cc:17-21 | the candidate `(checkpoint & MASK_HIGH_32) \| n_low32` and both of its one-period moves stay in 64 bits and keep the low bits; the guards `res >= BASE` and `res < MASK_HIGH_32` are exactly the checkpoint's, so neither move overflows |
| WrappingIntegers.WrapUnwrap | src/wrapping_integers.cc:5-25 | wrapping what `Unwrap` returns gives back the wire value, for every checkpoint |
| WrappingIntegers.UnwrapIsNearest | src/wrapping_integers.cc:15-24 | no 64-bit value with the same low 32 bits lies strictly closer to the checkpoint than the result |
| WrappingIntegers.UnwrapRecovers | src/wrapping_integers.cc:5-24 | an absolute seqno within half a period of the checkpoint survives wrap then unwrap |
| WrappingIntegers.UnwrapWrapAtCheckpoint | src/wrapping_integers.cc:5-24 | unwrapping `wrap(n)` against checkpoint `n` gives `n`, for every 64-bit `n` |
| WrappingIntegers.UnwrapAtZero | src/wrapping_integers.cc:15-24 | with checkpoint 0 the result is the 32-bit offset itself, below 2^32 |
| WrappingIntegers.UnwrapTie | src/wrapping_integers.cc:18-21 | at distance exactly 2^31 neither strict comparison fires: the result keeps the checkpoint's high 32 bits |
| WrappingIntegers.CongruentClose | src/wrapping_integers.cc:17-24 | two congruent 64-bit values less than a period apart are equal (uniqueness of the nearest value) |
| TcpReceiver.StreamIndex | src/tcp_receiver.cc:22-24 | the stream index, plus one for the stream's SYN and less the segment's own SYN flag, wraps back to the segment's seqno: it is the stream position of the segment's first payload byte |
| TcpReceiver.StreamIndexRecovers | src/tcp_receiver.cc:22-26 | a segment whose first payload byte has stream index `k` near what was already pushed is inserted at exactly `k`, with or without SYN |
| TcpReceiver.TCPReceiver.Receive | src/tcp_receiver.cc:6-27 | an errored stream ignores everything; RST sets the error and inserts nothing; before a zero point, non-SYN segments are dropped; otherwise the zero point is the first SYN's seqno, never changes afterwards, and the payload is inserted at `unwrap(seqno, zp, bytes_pushed + 1) + SYN - 1` modulo 2^64 with the FIN flag |
| TcpReceiver.TCPReceiver.Send | src/tcp_receiver.cc:29-39 | window is `min(available_capacity, 65535)`; ackno is absent exactly when no zero point is set, and otherwise unwraps to `bytes_pushed + 1 + is_closed`; RST is the stream's error flag |
| TcpSender.RetransmissionTimer.Active | src/tcp_sender.cc:6-10 | the timer runs; only `is_active_` changes |
| TcpSender.RetransmissionTimer.Reset | src/tcp_sender.cc:11-15 | elapsed time becomes 0, timeout and running state kept |
| TcpSender.RetransmissionTimer.Tick | src/tcp_sender.cc:16-20 | elapsed time grows by `ms` only while the timer runs |
| TcpSender.RetransmissionTimer.Timeout | src/tcp_sender.cc:21-25 | the timeout doubles, nothing else changes |
| TcpSender.RetransmissionTimer.IsExpired | src/tcp_sender.cc:143 | assumed meaning of `is_expired`: running with at least one timeout elapsed; an expired timer is always running, which is what lets Tick resend the queue's front |
| TcpSender.RetransmissionTimer.constructor | src/tcp_sender.cc:131-134 | a fresh timer has the initial timeout, no elapsed time and is stopped |
| TcpSender.TCPSender.SequenceNumbersInFlight | src/tcp_sender.cc:26-29 | the count in flight is `next_seq_ - ack_seq_` |
| TcpSender.TCPSender.ConsecutiveRetransmissions | src/tcp_sender.cc:31-35 | the retransmission count |
| TcpSender.TCPSender.EffectiveWindow | src/tcp_sender.cc:41 | an advertised window of 0 is used as 1, any other as itself |
| TcpSender.TCPSender.MakeMessage | src/tcp_sender.cc:93-100 | the seqno unwraps back to the absolute seqno; the flags and payload are those given; RST is the stream's error flag |
| TcpSender.TCPSender.MakeEmptyMessage | src/tcp_sender.cc:88-92 | a segment occupying no sequence numbers at `next_seq_`, with RST as the stream's error flag |
| TcpSender.TCPSender.ReadPayload | src/tcp_sender.cc:49-66 | the payload is taken from the front of the stream, in order; it is exactly `min(bytes buffered, MAX_PAYLOAD_SIZE, window - in flight - !SENT_SYN_)` bytes long, and empty once FIN_ was set; FIN_ is set once the stream is finished |
| TcpSender.TCPSender.NextSegment | src/tcp_sender.cc:67-75 | the seqno is `wrap(next_seq_)`; SYN on the connection's first segment and SYN_ on later ones; FIN is kept exactly when the segment, less its SYN discount, fits the window |
| TcpSender.TCPSender.EmitSegment | src/tcp_sender.cc:67-84 | the segment, with seqno `wrap(next_seq_)`, is queued and transmitted; it carries FIN exactly when FIN_ is set and the segment with FIN, less the SYN discount, fits the window; the in-flight count grows by its length less the SYN discount, so always, and the timer runs afterwards; SENT_SYN_ is set and SENT_FIN_ follows its FIN; given the buffer and FIN_ before the payload was read, the segment is one step of Push's batch (started below the window, occupying sequence numbers, maximal payload, FIN rule); the invariant is kept |
| TcpSender.TCPSender.Enqueue | src/tcp_sender.cc:77-84 | a segment that occupies sequence numbers is queued and transmitted, `numbers_in_flight_` and `next_seq_` both grow by its counted size, SENT_SYN_ is set, SENT_FIN_ follows its FIN, and the timer runs; the accounting invariant is kept |
| TcpSender.TCPSender.SendSegment | src/tcp_sender.cc:46-84 | one turn of the loop: one segment, started with fewer than the window in flight, at seqno `wrap(next_seq_)`, SYN on the connection's first segment and SYN_ after, carrying exactly as many front bytes of the stream as MAX_PAYLOAD_SIZE and the window's room allow, and FIN exactly when the stream is finished and the segment with FIN fits, is queued and transmitted; the in-flight count grows by at least one but stays within the window, and the timer runs |
| TcpSender.TCPSender.PushStep | src/tcp_sender.cc:45-85 | the loop's progress survives one turn: segments queued and transmitted in order, carrying the stream's bytes in order, each started below the window and occupying at least one sequence number, at the wrap of where the previous one ended, as long as the stream, MAX_PAYLOAD_SIZE and the window allowed, SYN first, FIN exactly when the stream was finished and it fitted, the timer running; `window - numbers_in_flight_` decreases |
| TcpSender.TCPSender.FillWindow | src/tcp_sender.cc:45-85 | the loop ends only once the window is full, FIN is sent, or nothing is left to send (no bytes, SYN sent, stream not finished); every new segment is started with fewer than the window in flight, occupies at least one sequence number, and is queued and transmitted in order at the wrap of where the previous one ended (the first at `next_seq_`); it takes as many bytes as the stream, MAX_PAYLOAD_SIZE and the window's room allow, has SYN on the connection's first segment and SYN_ after, and FIN exactly when the stream is finished and the segment with FIN fits; at most the window is in flight; the timer runs once anything was sent and is untouched otherwise |
| TcpSender.TCPSender.Push | src/tcp_sender.cc:37-86 | once FIN was sent nothing is sent and nothing but FIN_ changes (SENT_FIN_ and the timer included); otherwise the outcome of FillWindow over the window (0 read as 1): segments started only below the window, each occupying sequence numbers, consecutive seqnos, maximal payloads, SYN first, FIN on a segment exactly when it fits, timer started if anything was sent and untouched if not, stopping only with the window full, FIN sent or nothing to send; the invariant (accounting, and the timer running exactly while segments are outstanding) is preserved |
| TcpSender.TCPSender.Receive | src/tcp_sender.cc:101-137 | the window is always recorded; an absent ackno sets the stream error exactly when the window is 0 and changes nothing else, the retransmission count included; an ackno beyond `next_seq_` changes nothing else either; otherwise the acknowledgement is applied |
| TcpSender.TCPSender.Acknowledge | src/tcp_sender.cc:110-136 | exactly the front segments the pop test admits are removed and counted; if any was, the timer is rebuilt with the initial timeout, runs exactly when segments remain, and the retransmission count is 0; otherwise timer and count are unchanged |
| TcpSender.TCPSender.PopAcknowledged | src/tcp_sender.cc:114-126 | the loop pops `AckedCount` front segments in FIFO order, advances `ack_seq_` by their counted lengths, keeps the accounting invariant, and never acknowledges more than one past the ackno |
| TcpSender.TCPSender.PopFront | src/tcp_sender.cc:116-125 | one pop: `numbers_in_flight_` and `ack_seq_` move by the same amount, so their sum is kept, and the subtraction never goes below zero; SYN_ is unchanged once SYN was sent |
| TcpSender.TCPSender.Tick | src/tcp_sender.cc:139-150 | on expiry the oldest segment is retransmitted, the timeout doubles unless the window is 0, elapsed time restarts and the count grows by one; otherwise only the elapsed time moves |
| TcpSender.ProgressedStep | src/tcp_sender.cc:45-85 | one more segment, made where the batch ended and taking the stream's next bytes, keeps the batch queued and transmitted in order, its payloads the stream's prefix, SYN first and FIN only last |
| TcpSender.PacketisedStep | src/tcp_sender.cc:46-84 | a segment sent where the batch ended, below the window, at its wrap, with SYN_, as long as the stream, MAX_PAYLOAD_SIZE and the window's room allow and with FIN exactly when it fits, extends a packetised batch, FIN_ having been set during the batch only once the stream ran dry |
| TcpSender.AckedCount | src/tcp_sender.cc:115-126 | the number of segments the acknowledgement loop pops never exceeds the queue's length |
| TcpSender.AckedWithinAckno | src/tcp_sender.cc:117-123 | after the pops, `ack_seq_` exceeds the ackno by at most the last popped segment's SYN flag less the discount |
| TcpSender.AckedCountMonotone | src/tcp_sender.cc:115-126 | a larger ackno pops at least as many segments |
| TcpSender.SynSegmentPoppedOneEarly | src/tcp_sender.cc:117-119 | with no discount, a SYN segment with two payload bytes (length 3) is popped by ackno 2 |
| TcpSender.CountedNonNegative | src/tcp_sender.cc:122 | every queue suffix counts non-negatively, so `numbers_in_flight_ -= ...` cannot wrap |
| NetworkInterfaces.NetworkInterface.constructor | src/network_interface.cc:11-19 | the interface starts with empty maps, queue and logs and the given addresses |
| NetworkInterfaces.NetworkInterface.SendDatagram | src/network_interface.cc:28-72 | cache hit: one IPv4 frame to the cached address, no state change; pending request: nothing at all; otherwise a request entry of age 0, the datagram queued at the end, and one broadcast ARP request with this interface as sender and `next_hop` as target |
| NetworkInterfaces.NetworkInterface.RecvFrame | src/network_interface.cc:75-155 | frames for others, of other types or that fail to parse change nothing; a parsed datagram is appended to the received queue; a parsed ARP message caches its sender only if not cached; a request clears its sender's suppression and is answered with one unicast reply exactly when it targets this IP; another message to this Ethernet address flushes the queue for its sender |
| NetworkInterfaces.NetworkInterface.Flush | src/network_interface.cc:135-151 | the datagrams bound for the sender are transmitted to it in queue order and erased; the rest stay in their order |
| NetworkInterfaces.NetworkInterface.Tick | src/network_interface.cc:157-176 | both maps are aged by exactly `ms`, requests reaching 5000 and cache entries reaching 30000 are erased, nothing is added, and all surviving ages are below their limits |
| NetworkInterfaces.NetworkInterface.AgeRequestTable | src/network_interface.cc:160-166 | the in-place loop over the request map computes `AgeRequests` |
| NetworkInterfaces.NetworkInterface.AgeArpTable | src/network_interface.cc:169-175 | the in-place loop over the cache computes `AgeCache` |
| NetworkInterfaces.NetworkInterface.DatagramFrame | src/network_interface.cc:138-146 | an IPv4 frame from this interface to the given address carrying the serialised datagram |
| NetworkInterfaces.NetworkInterface.ArpFrame | src/network_interface.cc:61-69 | an ARP frame from this interface to the given address carrying the serialised message |
| NetworkInterfaces.NetworkInterface.DatagramFramesDeliver | src/network_interface.cc:135-151 | the flushed frames are, one for one and in order, the frames of the released datagrams |
| NetworkInterfaces.AgeRequests | src/network_interface.cc:160-166 | ageing the request map adds no key and leaves every surviving age below 5000 |
| NetworkInterfaces.AgeCache | src/network_interface.cc:169-175 | ageing the cache adds no key, keeps addresses, and leaves every surviving age below 30000 |
| NetworkInterfaces.CacheEntryLifetime | src/network_interface.cc:157-176 | a live cache entry is present after a series of ticks exactly while its age plus their sum is below 30000, and then has that age and its address |
| NetworkInterfaces.RequestLifetime | src/network_interface.cc:157-166 | a live request entry is present after a series of ticks exactly while its age plus their sum is below 5000 |
| NetworkInterfaces.FlushPartitions | src/network_interface.cc:135-151 | flushing partitions the queue: released plus kept is the whole queue as a multiset, and the lengths add up |
| NetworkInterfaces.FilterSelects | src/network_interface.cc:135-151 | the released entries are exactly those bound for the sender, the kept ones exactly the others |
| NetworkInterfaces.FlushIdempotent | src/network_interface.cc:135-151 | after a flush for an address nothing more is bound for it; a second flush keeps everything |

## Left out

- The byte streams' internals (`Reader`, `Writer`) and the reassembler are not part of this model. The sender sees its stream as buffered bytes plus `closed` and `error` flags, and `peek` as the whole buffer. The receiver sees its writer through `bytes_pushed`, `available_capacity`, `is_closed` and `has_error`, and logs each `insert` call.
- TcpReceiver.TCPReceiver.Receive: the effect of an insertion on the writer (bytes pushed, closing) is the reassembler's and is not modelled. So the end-to-end ackno after a given segment is not stated.
- TcpReceiver.TCPReceiver.Send: the ackno round trip is stated only when `bytes_pushed + 2 < 2^64`, where the 64-bit sum cannot wrap.
- `is_expired`, the initial value of `SYN_`, the initial RTO, MAX_PAYLOAD_SIZE and the initial window are declared in headers that are not part of this model. Expiry is taken as "running and elapsed time at least the timeout". The others are constructor parameters.
- TcpSender.RetransmissionTimer.constructor: the timer's class is declared in a header that is not part of this model; a new timer starting stopped with no elapsed time is an assumption, matching its use on `src/tcp_sender.cc:131-134`.
- TcpSender.RetransmissionTimer.Timeout: the doubling is on an unbounded natural. The 64-bit shift's overflow is not modelled.
- TcpSender.TCPSender: `next_seq_`, `ack_seq_`, `numbers_in_flight_` and the retransmission count are unbounded naturals. Their 64-bit wrap-around is not modelled. Unwrapping uses `next_seq_` modulo 2^64 as its checkpoint.
- TcpSender.TCPSender.Push: that the timeout and the elapsed time are kept follows from the frame (only the timer's running flag may change), not from a separate postcondition.
- TcpSender.TCPSender.PopAcknowledged: states the pop test as written, which subtracts the segment's own SYN flag. So "only fully covered segments are popped" holds only up to one sequence number (`AckedWithinAckno`, `SynSegmentPoppedOneEarly`).
- `transmit`, the output port and the debug line printed by the interface's constructor are I/O. Transmissions are appended to logs.
- The wire formats of Ethernet frames, ARP messages and datagrams are external codecs. They are functions given to the interface, and no byte layout is stated. ARP fields the code never sets (hardware and protocol types and lengths) are not modelled. The request's target Ethernet address, which the code leaves unset (`src/network_interface.cc:58`), is taken as 0, the header's assumed default.
- NetworkInterfaces.NetworkInterface: ages in both maps are unbounded naturals. The `size_t` addition's wrap-around is not modelled.
- `Address` and `EthernetAddress` conversions are library wrappers. IPs are 32-bit values and Ethernet addresses are 48-bit values.
