# Verified models of the networking projects

This project models four pieces of the repository in Dafny and proves what they promise, over every input and
every run.

* **The reliable transport** (`IReliable Data Transport - p04`). `Segments` is the wire format, `Rtt` the clock
  and the round-trip estimator, `Sockets` what one end of a connection does (starting a call, and a blocked call
  meeting a segment or a timeout), `Calls` what each call does over a whole script of receive outcomes, said
  outright, and `ReliableSockets` the class itself, method by method. `Transport` joins two sockets by two channels
  into one step relation with an inductive invariant over all runs; `Correspondence` ties it back to the class.
  `Handshake`, `ClosingDown`, `Conservation` and `Progress` prove what follows; `Programs`, `FileTransfer` and
  `Recovery` put `sender.cpp` and `receiver.cpp` on top, and `ProgramRuns` ties their main loops to the runs; `Proxy`
  models `mock_network.py`, and `Reordering` proves which swaps of segments are harmless.
* **The bounded buffer** (`ToreroServe (A Lean Web Server) - p02`). `Monitors` is every interleaving of the passes
  that threads make through the lock, with explicit wait sets; `BoundedBuffers` is the object.
* **DNS names** (`Iterative DNS Resolver - p03`). `Utf8` is text, `DnsNames` the encoder, the decoder with pointers
  and the query, as defined in sections 3.1, 4.1.1, 4.1.2 and 4.1.4 of RFC 1035; a str is its UTF-8 bytes
  (section 4 of RFC 3629).
* **Chunked senders** (`Streaming Music Protocol - p05`). `ChunkedSenders` compares sending an array and sending a
  file.

`Prelude` holds shared types. `dafny verify dfyconfig.toml` checks everything.

The transport's channels lose segments, may repeat a segment in place, and keep their order: the proxy handles one
datagram at a time and sleeps inline (`Proxy.KeptByDrops`). A blocked call's `receive` yields a segment, a timeout
(never when the timeout is 0) or, in the class, a closed connection. RTT samples are at most 429496729 ms, a fifth
of the range of an int, so that no sum of ints overflows (`Rtt.TimeoutFits`).

## Where the code and its documentation differ

The model follows the code.

* The repository's README.md lists reordering among the handled cases (line 63). In general it is not
  (`Reordering.ReorderingBreaksDelivery`); `Reordering.SwapToBIff` and `Reordering.SwapToAIff` say which swaps are.
* ACK 3 is sent once, so a single lost datagram can strand a connection: `Handshake.HandshakeCompletableIff`,
  `Handshake.HandshakeCanFail`.
* A file whose length is a multiple of 1394 ends with an empty data segment, which ends the receiving loop; the
  sender's `close_connection` then never returns: `FileTransfer.CloseReturnsIff`.
* If every ACK returns within its millisecond, as in the recorded run, the timeout settles at 0, which means "wait
  forever", and one loss then stops the connection for good: `Progress.OneLossDeadlocks`, `Recovery.RecoverableIff`.
* `update_rtt` takes the deviation from the new estimate, section 2 of RFC 6298 from the old one. The headers speak
  of an initial estimate of 100; the constructor sets 200.
* `getItem` signals nobody: `Monitors.OnlySpuriousWakesProducer`, `Monitors.ServerStalls`.
* The name codec takes labels of up to 191 bytes where RFC 1035 allows 63, and cuts a label with non-ASCII
  characters short, since it packs as many bytes as the label has characters (`DnsNames.NameRoundTripIff`); a
  pointer to the root after a label leaves a trailing dot (`DnsNames.CompressionPreservesMeaning`).
* `FileSender` says it rewinds after a failed send and seeks forward: `ChunkedSenders.FileAlignedIff`,
  `ChunkedSenders.EagainSkipsChunks`, `ChunkedSenders.EagainIsFatal`.

## Model

| member | source | states |
|---|---|---|
| Transport.DeliversInOrder | IReliable Data Transport - p04/ReliableSocket.cpp:177-265 | in every run from two fresh sockets, handshake, loss, duplication and timeouts included, what receive_data returned is a prefix of what send_data was given, and acked <= delivered <= acked + 1 |
| Transport.CloseMeansComplete | IReliable Data Transport - p04/ReliableSocket.cpp:257-313 | whenever the receiver has seen a CLOSE or the sender is CLOSED, everything sent has been delivered; sender CLOSED implies receiver CLOSING or CLOSED |
| Transport.NeverAborts | IReliable Data Transport - p04/ReliableSocket.cpp:226-234 | no run of two correct programs reaches exit() or an uncaught SocketTimeout, and nothing ever in flight is the empty datagram that would raise ConnectionClosed |
| Transport.StepKeepsInv | IReliable Data Transport - p04/ReliableSocket.cpp:329-383 | every event of either side or of the channels keeps the invariant: handshake phase, one-bit numbering, levels that never fall along a channel, and nothing in flight below what its reader has passed; the same with only the data segments and their ACKs in order |
| Transport.NewDataKeepsInv | IReliable Data Transport - p04/ReliableSocket.cpp:239-250 | a data segment with the expected bit is the next payload, never an old one with the same bit |
| Transport.OldDataKeepsInv | IReliable Data Transport - p04/ReliableSocket.cpp:251-255 | a data segment with the other bit is the payload delivered last, and the ACK repeated for it belongs to that payload |
| Transport.SendKeepsInv | IReliable Data Transport - p04/ReliableSocket.cpp:177-200 | reusing a sequence bit for a new payload cannot confuse any segment or ACK still in flight |
| Correspondence.SenderCallCorresponds | IReliable Data Transport - p04/ReliableSocket.cpp:177-200 | between two calls of the sending program a run takes its socket exactly where one connect_to_remote, send_data or close_connection over the outcomes it met takes it, and adds to the channel exactly the segments that call transmits |
| Correspondence.ReceiverCallCorresponds | IReliable Data Transport - p04/ReliableSocket.cpp:203-265 | the same for accept_connection, receive_data and close_connection of the receiver, with the payload returned and the ACKs transmitted |
| Calls.SendingExact | IReliable Data Transport - p04/ReliableSocket.cpp:329-383 | send_until_acked ends at the first expected ACK (or closed connection) among its outcomes and at nothing else, transmits its segment once more for each outcome before that, wrong segment or timeout alike, and leaves exactly this socket |
| Calls.AcceptExact | IReliable Data Transport - p04/ReliableSocket.cpp:40-104 | accept_connection transmits one ACK 2 for the first CONN, one more for each later CONN and each timeout before ACK 3, and nothing else; the first ACK 3 ends it; its timeout is estimate + 4 deviation |
| Calls.AcceptNoneExact | IReliable Data Transport - p04/ReliableSocket.cpp:41-72 | before the first CONN nothing is transmitted, and a timeout, a closed connection or a socket in use ends the program |
| Calls.ConnectExact | IReliable Data Transport - p04/ReliableSocket.cpp:106-153 | connect_to_remote transmits CONN once and once more for each outcome before ACK 2, then ACK 3 once |
| Calls.SendExact | IReliable Data Transport - p04/ReliableSocket.cpp:177-200 | send_data transmits its data segment once and once more for each outcome before its ACK, then takes that ACK's sample, sets the timeout and flips the bit; in any other state it does nothing |
| Calls.ReceiveExact | IReliable Data Transport - p04/ReliableSocket.cpp:203-265 | receive_data waits without a timeout for the first data segment with its bit or CLOSE, answers every other data segment with the other bit, ignores the rest, and answers and returns what ended it |
| Calls.CloseSenderExact | IReliable Data Transport - p04/ReliableSocket.cpp:269-281 | a sender's close_connection transmits CLOSE once and once more for each outcome before ACK 4 |
| Calls.CloseOtherExact | IReliable Data Transport - p04/ReliableSocket.cpp:283-315 | a receiver's close_connection answers each CLOSE with ACK 4 until the first timeout, of two seconds, or closed connection; in any other state the socket is closed at once |
| ReliableSockets.ReliableSocket.constructor | IReliable Data Transport - p04/ReliableSocket.cpp:32-38 | a new socket is INIT with sequence number 0, estimate 200, deviation 10 and no timeout |
| ReliableSockets.ReliableSocket.AcceptConnection | IReliable Data Transport - p04/ReliableSocket.cpp:40-104 | for every script of outcomes: the state, timeout, segments sent and outcomes used of accept_connection are those that Calls.AcceptExact and Calls.AcceptNoneExact spell out, returned or still blocked |
| ReliableSockets.ReliableSocket.ConnectToRemote | IReliable Data Transport - p04/ReliableSocket.cpp:106-153 | the same for connect_to_remote |
| ReliableSockets.ReliableSocket.UpdateRtt | IReliable Data Transport - p04/ReliableSocket.cpp:162-174 | the double, unsigned and int conversions leave exactly the integer estimator's new values, and the timeout is estimate + 4 deviation, an int |
| ReliableSockets.ReliableSocket.SendUntilAcked | IReliable Data Transport - p04/ReliableSocket.cpp:329-383 | the loop's effect for DATA and CLOSE over every script |
| ReliableSockets.ReliableSocket.TakeAck | IReliable Data Transport - p04/ReliableSocket.cpp:347-382 | one pass of send_until_acked's loop reacts as the call semantics of Sockets does: stop on the expected ACK only, estimator touched for DATA only |
| ReliableSockets.ReliableSocket.SendData | IReliable Data Transport - p04/ReliableSocket.cpp:177-200 | send_data's whole effect over every script, from any state |
| ReliableSockets.ReliableSocket.ReceiveData | IReliable Data Transport - p04/ReliableSocket.cpp:203-265 | receive_data's whole effect over every script, from any state, and 0 bytes unless a data segment was accepted |
| ReliableSockets.ReliableSocket.TakeSegment | IReliable Data Transport - p04/ReliableSocket.cpp:226-264 | one pass of receive_data's loop reacts as the call semantics does: what is acknowledged, accepted and returned |
| ReliableSockets.ReliableSocket.CloseConnection | IReliable Data Transport - p04/ReliableSocket.cpp:268-315 | close_connection's whole effect over every script, spelled out by Calls.CloseSenderExact and Calls.CloseOtherExact |
| ReliableSockets.ReliableSocket.SendAck | IReliable Data Transport - p04/ReliableSocket.cpp:318-326 | exactly one ACK segment with the given number and sequence number 0 is handed to the network |
| Handshake.HandshakeAgreement | IReliable Data Transport - p04/ReliableSocket.cpp:74-102 | the receiver is established only after the sender has passed WAIT_HS3, and ACK 3 is transmitted at most once over any run |
| Handshake.HandshakeCompletableIff | IReliable Data Transport - p04/ReliableSocket.cpp:74-151 | from any reachable state some continuation has the receiver established if and only if it is, or a copy of ACK 3 is in flight, or the sender has not seen ACK 2 and neither program has closed its socket |
| Handshake.DroppedAck3IsFatal | IReliable Data Transport - p04/ReliableSocket.cpp:82-94 | without duplication, after ACK 3 is dropped every continuation delivers nothing and returns from no send_data |
| Handshake.HandshakeCanFail | IReliable Data Transport - p04/ReliableSocket.cpp:148 | a run with one drop strands the connection |
| ClosingDown.CloseCompletableIff | IReliable Data Transport - p04/ReliableSocket.cpp:268-313 | after the receiver has seen a CLOSE, the sender's close_connection can return if and only if ACK 4 is in flight or the receiver still listens and another CLOSE is in flight or will be provoked by a timeout or a stale ACK |
| ClosingDown.ReceiverAlwaysCloses | IReliable Data Transport - p04/ReliableSocket.cpp:283-313 | in every run a draining receiver's timeout is 2000 ms, and from every reachable state with a seen CLOSE the receiver's own call and timeout close its socket, without another segment |
| ClosingDown.OthersCloseAtOnce | IReliable Data Transport - p04/ReliableSocket.cpp:314 | in every run, closing an unconnected socket or a receiver's that has seen no CLOSE succeeds at once and transmits nothing |
| Conservation.SegmentConservation | IReliable Data Transport - p04/ReliableSocket.cpp:348-382 | in every reachable state, segments in flight plus drops so far are at most 2 plus timeouts and duplications so far: stale ACKs do not multiply |
| Conservation.ConservationIsTight | IReliable Data Transport - p04/ReliableSocket.cpp:95-98 | for any numbers of timeouts and duplications some run reaches that bound |
| Progress.ExactCost | IReliable Data Transport - p04/ReliableSocket.cpp:347-382 | from any reachable established state with nothing in flight, when timeouts fire only with nothing in flight, offering p payloads with d drops costs exactly p + d data transmissions, and the run is at most 6p + 6d + 5 events long |
| Progress.CalmStep | IReliable Data Transport - p04/ReliableSocket.cpp:226-264 | every such event keeps at most one segment in flight, the cost balance, and strictly lowers the measure |
| Progress.CalmRunsRestIff | IReliable Data Transport - p04/ReliableSocket.cpp:177-200 | such a run can go on only by losing a segment or by a new send_data if and only if the receiver is not between two calls and everything is delivered and acknowledged, or the last loss was met with a timeout of 0, or a data segment is on its way to a closed socket |
| Progress.DeadlockIff | IReliable Data Transport - p04/UnreliableSocket.h:79-87 | with data outstanding, nothing in flight and the receiver waiting, some event is possible if and only if the timeout is not 0 |
| Progress.OneLossDeadlocks | IReliable Data Transport - p04/ReliableSocket.cpp:162-174 | a run whose samples are all 0 reaches, with a single drop, a state with data outstanding and no possible event |
| Rtt.MachineRefinesIntegers | IReliable Data Transport - p04/ReliableSocket.cpp:166-172 | int-truncated clocks, the uint32 sample, the unsigned difference read back by abs and the double truncations together compute floor((7e+s)/8) and floor((3d+abs(s-e'))/4) of the true elapsed time |
| Rtt.ClockDifference | IReliable Data Transport - p04/rdt_time.cpp:10-23 | the sample of two wrapped int clock readings is the true elapsed time, below 2^32 ms |
| Rtt.TimevalRoundTrip | IReliable Data Transport - p04/rdt_time.cpp:10-17 | splitting any int into a timeval loses nothing, gives seconds and microseconds the sign of the int with less than a million microseconds, and only 0 gives the zero timeval that means no timeout |
| Rtt.HullBound | IReliable Data Transport - p04/ReliableSocket.cpp:162-174 | for every sequence of samples the estimate stays in the hull of 200 and the samples, the deviation is at most 10 or the hull's width, and if no sample is 0 the timeout never is |
| Rtt.TimeoutFits | IReliable Data Transport - p04/ReliableSocket.cpp:172-173 | for every sequence of samples of at most 429496729 ms the sum of estimate and four deviations is an int; with a sample of 2^31 - 1 the first one is not |
| Rtt.Converges | IReliable Data Transport - p04/ReliableSocket.cpp:162-174 | under a constant sample s the estimator stops after finitely many updates with the estimate in [s-7, s] and the timeout in [s-3, s+21] |
| Rtt.FreshSocketSettles | IReliable Data Transport - p04/ReliableSocket.cpp:34-37 | from a fresh socket the timeout settles, at s itself for s <= 200, and at 0 exactly for s = 0 |
| Rtt.RecordedTimeout | IReliable Data Transport - p04/test_output/submission/test0.sender.log:13 | estimate 200, deviation 10 and sample 0 give the recorded timeout of 379 |
| Segments.CopyTo | IReliable Data Transport - p04/RDTSegment.cpp:66-72 | copy_to overwrites exactly the header and payload bytes of the destination |
| Segments.CopyPayloadTo | IReliable Data Transport - p04/RDTSegment.cpp:74-76 | copy_payload_to overwrites exactly the payload's length |
| Segments.WireRoundTrip | IReliable Data Transport - p04/RDTSegment.cpp:58-64 | parsing what copy_to wrote, with any bytes behind it, restores every field and the payload |
| Segments.WireBytes | IReliable Data Transport - p04/RDTSegment.h:12-22 | the bytes of a segment: sequence and ACK number, the type as 0 to 3 in the order of the enumeration, the payload size in network order at offset 4, the payload at 6 |
| Segments.ParseExact | IReliable Data Transport - p04/RDTSegment.cpp:58-64 | parsing a buffer yields exactly the segment whose bytes it starts with, and succeeds exactly for types 0 to 3 with the payload inside the buffer |
| Segments.ReceiveBufferRoundTrip | IReliable Data Transport - p04/ReliableSocket.h:29-30 | a segment survives one datagram and a stale 1400-byte receive buffer if and only if its payload is at most 1394 bytes |
| Segments.ProxyReadsTheSameHeader | IReliable Data Transport - p04/mock_network.py:55 | the proxy's '!BBBBH' view of a header agrees with the endpoints' struct |
| Proxy.UdpProxy | IReliable Data Transport - p04/mock_network.py:33-69 | for any datagrams from any addresses: what anybody but the server sends goes to the server, what the server sends goes to the last other address that spoke (or, before any has, to itself), in order, where the coin keeps it |
| Proxy.TwoPartyTraffic | IReliable Data Transport - p04/mock_network.py:57-63 | with two parties of which the client speaks first each side gets what the other sent and the coin kept |
| Proxy.AnswersGoToTheLatest | IReliable Data Transport - p04/mock_network.py:65-69 | a datagram from any new address goes to the server, and everything the server sends from then on goes to that address and to nobody before it |
| Proxy.ServerAlone | IReliable Data Transport - p04/mock_network.py:57-61 | while only the server has spoken everything goes back to it |
| Proxy.KeptByDrops | IReliable Data Transport - p04/mock_network.py:21-31 | what arrives is what was sent after a sequence of single drops, which are the channel's drop events |
| Reordering.HarmlessSwapsAreHarmless | README.md:63 | runs with any number of harmless swaps of neighbouring segments keep every promise: prefix delivery, the counts, completeness on close, no abort |
| Reordering.SwapToBIff | README.md:63 | after any such run, swapping two neighbours on the way to the receiver breaks prefix delivery or the counts in some continuation if and only if they are data segments with different bits and the receiver's socket is open |
| Reordering.SwapToAIff | README.md:63 | the same on the way to the sender, if and only if they are ACKs of data segments with different bits |
| Reordering.ReorderingBreaksDelivery | README.md:63 | a harmful swap does come about: a run with one swap makes receive_data return payloads p, q, p for p, q sent |
| Chunking.ChunksFlatten | IReliable Data Transport - p04/sender.cpp:48-57 | the buffers the sending loop passes to send_data, joined, are the file |
| Chunking.ChunkSizes | IReliable Data Transport - p04/sender.cpp:49-52 | all buffers hold 1394 bytes but the last, which holds length mod 1394, possibly nothing |
| Programs.SenderMain | IReliable Data Transport - p04/sender.cpp:37-63 | the main loop's effect on its socket is connect, send_data for each chunk of the file, close, over every script |
| Programs.SenderTranscript | IReliable Data Transport - p04/sender.cpp:37-63 | whatever happens on the way, when the sending program ends its transmissions without immediate repetitions are CONN, ACK 3, the chunks with alternating bits, CLOSE |
| Programs.SenderEndsIff | IReliable Data Transport - p04/sender.cpp:37-63 | over every script, the sending program ends if and only if ACK 2, an ACK with alternating bit for each chunk and ACK 4 arrive in this order, whatever is between them, while the connection is open |
| Programs.ReceiverMain | IReliable Data Transport - p04/receiver.cpp:37-66 | the main loop's effect on its socket and the bytes it writes, over every script |
| Programs.ReceiverExact | IReliable Data Transport - p04/receiver.cpp:37-66 | over every script the receiving program writes the payloads with alternating bits, in one pass over the arrivals, up to the first empty one or the CLOSE; transmits one ACK for each data segment, the CLOSE and what follows it; and ends, blocks or aborts as that pass says |
| Programs.ReceiverLoopExact | IReliable Data Transport - p04/receiver.cpp:41-66 | the same from any established state |
| FileTransfer.FileArrives | IReliable Data Transport - p04/receiver.cpp:41-66 | for every file and every run of the two programs: the output is a prefix of the file; it is the file once receive_data has returned 0; and the receiver has then seen a CLOSE exactly when the length is not a multiple of 1394 |
| FileTransfer.FileCanArrive | IReliable Data Transport - p04/sender.cpp:49-57 | for every file some run of the two programs delivers it |
| FileTransfer.ReceiverEnds | IReliable Data Transport - p04/receiver.cpp:41-66 | for every file and every run, once receive_data has returned 0 the receiving program ends with the file written, by its own call and timeout alone, CLOSED exactly when the length is not a multiple of 1394 |
| FileTransfer.CloseReturnsIff | IReliable Data Transport - p04/sender.cpp:62-63 | some run of the two programs returns from the sender's close_connection if and only if the file's length is not a multiple of 1394 |
| Recovery.RecoverableIff | IReliable Data Transport - p04/receiver.cpp:41-54 | from any state the two programs can reach, for any file, some continuation delivers the whole file if and only if it has been delivered or the connection is neither stranded without ACK 3 nor deadlocked: data unacknowledged, no data and no ACK in flight, timeout 0 |
| ProgramRuns.ReceiverCorresponds | IReliable Data Transport - p04/receiver.cpp:37-66 | for every file and every run of the network, receiver.cpp's main loop over the outcomes met in it writes what the run delivered, transmits what it put on the channel and leaves its socket |
| ProgramRuns.SenderCorresponds | IReliable Data Transport - p04/sender.cpp:37-63 | the same for sender.cpp's main loop |
| Monitors.BoundedFifo | ToreroServe (A Lean Web Server) - p02/BoundedBuffer.cpp:36-63 | in every interleaving the buffer is within capacity and what was put is what was got followed by what is buffered |
| Monitors.NoLostWakeup | ToreroServe (A Lean Web Server) - p02/BoundedBuffer.cpp:39-62 | in every interleaving, spurious wakeups included, while a consumer sleeps unnotified there are at least as many woken consumers as items, each able to take the next item |
| Monitors.EveryCallCounted | ToreroServe (A Lean Web Server) - p02/BoundedBuffer.cpp:36-63 | in every interleaving the calls of getItem are the items got plus the threads that sleep in it or are woken, and those of putItem the items put plus its sleeping and woken threads |
| Monitors.SpuriousWakeupsAreHarmless | ToreroServe (A Lean Web Server) - p02/BoundedBuffer.cpp:39-58 | a spurious wakeup of a consumer at an empty buffer or a producer at a full one ends in the state it started from |
| Monitors.StepKeepsInv | ToreroServe (A Lean Web Server) - p02/BoundedBuffer.cpp:36-63 | every pass of every thread keeps order, capacity, wakeup accounting and the separation of the wait sets |
| Monitors.OnlySpuriousWakesProducer | ToreroServe (A Lean Web Server) - p02/BoundedBuffer.cpp:43-58 | a producer asleep in putItem stays asleep with its item in every continuation without a spurious wakeup of it |
| Monitors.ProducerStall | ToreroServe (A Lean Web Server) - p02/BoundedBuffer.cpp:56-58 | with one producer and no spurious wakeup of it, once putItem waits nothing more is ever put and at most capacity items are got |
| Monitors.ServerStalls | ToreroServe (A Lean Web Server) - p02/torero-serve.cpp:319-350 | for any capacity and workers the server can reach a state with an item unserved in which only a spurious wakeup lets any of its threads move |
| BoundedBuffers.BoundedBuffer.GetItem | ToreroServe (A Lean Web Server) - p02/BoundedBuffer.cpp:36-46 | one pass of getItem: the oldest item, with the thread gone from every wait set, or waiting exactly when the buffer is empty; the new state is the monitor's |
| BoundedBuffers.BoundedBuffer.PutItem | ToreroServe (A Lean Web Server) - p02/BoundedBuffer.cpp:53-63 | one pass of putItem: the item appended, one sleeping consumer notified and the thread gone from every wait set, or waiting exactly when the buffer is full |
| DnsNames.GetDnsNameEncoding | Iterative DNS Resolver - p03/helpers.py:93-114 | for any str the loop succeeds exactly when no part has more than 255 characters, and yields the encoding that DnsNames.EncodingBytes spells out |
| DnsNames.EncodingBytes | Iterative DNS Resolver - p03/helpers.py:108-114 | the encoding has len(name) + 2 bytes: in its place for each part its number of characters and that many bytes of it, and a zero byte at the end |
| DnsNames.DecodeDnsName | Iterative DNS Resolver - p03/helpers.py:117-170 | the loop and its recursion return what the recursive decoder returns, errors included |
| DnsNames.ReadOffset | Iterative DNS Resolver - p03/helpers.py:157-160 | the two bit loops read the pointer's 14-bit offset |
| DnsNames.DecodeExact | Iterative DNS Resolver - p03/helpers.py:137-170 | on every buffer, decoding succeeds with a result if and only if the buffer holds there a well-formed name (UTF-8 labels, then the root or a pointer to a name) that says exactly that |
| DnsNames.ErrorsExact | Iterative DNS Resolver - p03/helpers.py:140-166 | decoding fails for want of bytes, or on a label that is not UTF-8, exactly when labels and at most `frames` pointers lead to such a place |
| Utf8.ValidUtf8Iff | Iterative DNS Resolver - p03/helpers.py:166 | bytes.decode() takes exactly the encodings of sequences of code points |
| Utf8.TextIsValid | Iterative DNS Resolver - p03/helpers.py:111 | and len() of the text is the number of its code points |
| DnsNames.JoinSplit | Iterative DNS Resolver - p03/helpers.py:108 | joining the parts of a split name with dots gives the name back |
| DnsNames.SplitParts | Iterative DNS Resolver - p03/helpers.py:108 | no part contains a dot |
| DnsNames.NameRoundTripIff | Iterative DNS Resolver - p03/helpers.py:130-134 | for any str without a part of more than 255 characters the encoding exists and decodes, at any offset in any surroundings, to the name and offset + len(name) + 2 if and only if every label is ASCII and has 1 to 191 characters |
| DnsNames.CompressionPreservesMeaning | Iterative DNS Resolver - p03/helpers.py:147-162 | a held name, however compressed, decodes to its labels joined by dots if and only if no label is followed by a pointer to the root, and the index returned is just past the root byte or first pointer |
| DnsNames.CompressedRefinesPlain | Iterative DNS Resolver - p03/helpers.py:161-162 | labels and a pointer to an earlier, possibly compressed, encoding of the remaining labels, added to a message, decode to what the name written out decodes to |
| DnsNames.RecursionExact | Iterative DNS Resolver - p03/helpers.py:161 | decoding runs out of stack frames exactly when there are more pointers to follow than frames |
| DnsNames.BackwardTerminates | Iterative DNS Resolver - p03/helpers.py:140-162 | if every pointer reached leads strictly below the start of the segment holding it, decoding ends within that many frames |
| DnsNames.PointerBelowItselfLoops | Iterative DNS Resolver - p03/helpers.py:147-162 | a pointer to the label just before it leads below itself but not below its segment's start, and recurses for ever, whatever the label |
| DnsNames.ConstructQuery | Iterative DNS Resolver - p03/helpers.py:173-203 | a query exists exactly when no label has over 255 characters; its six 16-bit header fields are the id, 0, 1, 0, 0, 0, most significant byte first, followed by the encoded hostname, the type and class 1 |
| DnsNames.QueryRoundTripIff | Iterative DNS Resolver - p03/helpers.py:194-203 | decoding a query at 12 gives the hostname and length - 4 if and only if every label is ASCII and has 1 to 191 characters |
| ChunkedSenders.ArraySender.SendNextChunk | Streaming Music Protocol - p05/server/ChunkedDataSender.cpp:18-49 | the bytes taken are the next ones of the array, at most 4096, and EAGAIN changes nothing |
| ChunkedSenders.FileSender.SendNextChunk | Streaming Music Protocol - p05/server/ChunkedDataSender.cpp:53-88 | file position, failbit, counter and bytes taken after every answer of send() |
| ChunkedSenders.SendersAgree | Streaming Music Protocol - p05/server/ChunkedDataSender.cpp:18-88 | for every schedule of positive partial sends both senders emit the same bytes: as much of the data as send() had room for, at most 4096 bytes a call |
| ChunkedSenders.ArraySurvivesEagain | Streaming Music Protocol - p05/server/ChunkedDataSender.cpp:36-39 | ArraySender emits the same across any EAGAINs |
| ChunkedSenders.ArrayExitsIff | Streaming Music Protocol - p05/server/ChunkedDataSender.cpp:40-44 | ArraySender exits if and only if send() takes nothing or fails otherwise while bytes remain |
| ChunkedSenders.FileAlignedIff | Streaming Music Protocol - p05/server/ChunkedDataSender.cpp:75-79 | FileSender stays aligned with its file if and only if no send fails while bytes remain |
| ChunkedSenders.EagainSkipsChunks | Streaming Music Protocol - p05/server/ChunkedDataSender.cpp:75-79 | each EAGAIN leaves FileSender's stream two chunks further on |
| ChunkedSenders.SendsFromPosition | Streaming Music Protocol - p05/server/ChunkedDataSender.cpp:58-72 | positive partial sends emit what follows the stream's position, wherever that is |
| ChunkedSenders.ShortReadStopsAtEnd | Streaming Music Protocol - p05/server/ChunkedDataSender.cpp:58-72 | a read that comes up short leaves the stream failed at the end of the file |
| ChunkedSenders.EagainIsFatal | Streaming Music Protocol - p05/server/ChunkedDataSender.cpp:75-83 | after an EAGAIN with bytes remaining FileSender never sends the whole file, whatever follows, and exits after enough calls that are not EAGAIN |

## Left out

- Sockets, addresses and hostnames (UnreliableSocket.cpp, ServerSocket.cpp, ClientSocket.cpp, networking.cpp), logging and process exit codes: a call's receive outcomes and send answers are parameters, an exit is a final state.
- Transport.NeverAborts: a third party's empty datagram, which would raise ConnectionClosed, is not an event of the network model; the class methods do handle it.
- Progress.ExactCost: covers runs without duplication in which no timeout is premature; with premature timeouts the number of transmissions depends on the timing.
- ReliableSockets.ReliableSocket.UpdateRtt: samples over 429496729 ms (almost five days), with which estimate + 4 deviation can overflow an int, are excluded here and from the network's runs.
- Segments.ReceiveBufferRoundTrip: payloads over 65529 bytes, for which get_total_size wraps and the sender's buffer is too short, are excluded.
- Programs.SenderMain: a file that cannot be opened, for which eof() never becomes true, is not modelled.
- BoundedBuffers.BoundedBuffer.GetItem: a method is one pass through the lock, because a Dafny method cannot block; the wait loops are the interleaving of passes in Monitors, which also has the spurious wakeups.
- DnsNames.DecodeDnsName: the interpreter's recursion limit is a parameter.
- DnsNames.GetDnsNameEncoding: a str with a lone surrogate, which has no UTF-8 encoding, is excluded.
- Probabilities of loss and liveness without a bound on drops.
- ConnectedClient.cpp, music-server.cpp, protocol.cpp, SongLibrary.cpp and the Java client: event loop, enumerations and file system around the senders.
- torero-serve.cpp beyond its threads: HTTP parsing and file serving.
- resolver.py: its parsing and query functions are stubs.
- The sensor client of the first project: input, output and user interface.
