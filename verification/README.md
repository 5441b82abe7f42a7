# Frame-aligned packet pipeline: model and proofs

The program moves raw-socket messages through a pipeline: senders print numbered messages (frame numbers
0..254, repeated), receivers filter and parse them and push the packets into one `SharedQueue` each, and a
concatinator thread merges the queues by frame number, prints every round as one message, cuts it into
IP fragments of 9000 bytes and writes an IP header with an Internet checksum before each. Beside the
pipeline stand a bounded, closable `Channel` and a TCP server that reaps disconnected clients. This project
models that behaviour in Dafny and proves what it keeps over every run.

| file | contents |
|---|---|
| `Packets.dfy`, `Order.dfy` | bytes, packets, sizes; positions in order |
| `Wire.dfy` | sender, printer, parser, receiver |
| `Checksum.dfy` | the checksum against one's-complement arithmetic (RFC 1071) |
| `Fragment.dfy` | IP header, fragmenter, and what a host can reassemble (RFC 791) |
| `Reassembly.dfy` | a host that reassembles while packets arrive |
| `HostOutcome.dfy` | what a host accepts from a datagram anywhere in a run |
| `Merge.dfy` | the reference merge of push histories |
| `Alignment.dfy` | what the merge keeps together under loss and across wraps |
| `AlignmentExact.dfy` | exactly which losses it survives |
| `Message.dfy` | the concatenated message and its decoder |
| `Concatinator.dfy` | the concatinator as a step system interleaved with receivers, and as an object |
| `Reachability.dfy` | every round of the merge takes place in some run |
| `Pipeline.dfy` | senders to receiving host |
| `SharedQueue.dfy` | the unbounded queue, its wake-ups and its monitor |
| `QueueSystem.dfy` | the concatinator over shared queues |
| `Channel.dfy`, `ChannelWakeup.dfy`, `ChannelMonitor.dfy` | the bounded channel, its wake-ups and its monitor |
| `Reaper.dfy`, `Locking.dfy` | the server's client list, its sweep, and its locks and joins |

Stateful code appears twice. Loops over buffers, queues and lists are classes and methods, proved against
functions; protocols in which several threads interleave are step systems (`Enabled`, `Apply`, `Run`), and the
monitor methods are proved to be exactly those steps, from reachable states to reachable states. A mutex
section is one step; a notification that happens after the unlock is a step of its own; waiting threads may
wake spuriously.

## Results that may surprise

* The fragment offset is set to zero once, before the thread's outer loop
  (`concatinator/src/concatinator.cc:63`), and never again, so by RFC 791 a receiving host can rebuild a
  datagram exactly when the number of fragments sent before it is a multiple of 16384 and it has at most 65535
  bytes with its header, which is a round of at most ten packets (`Fragment.HostRebuildsDatagram`,
  `Pipeline.HostRecoversGroup`, `Pipeline.HostRecoversMessage`). The code does not check the length: it also
  sends longer messages, with offsets that no datagram can have. An offset with bit 13 set switches
  more-fragments on.
* Outside that case a host does not always get nothing. If the count of fragments reaches a multiple of 16384
  inside a message, a host accepts the rest of the message as a complete datagram
  (`HostOutcome.HostAcceptsTails`).
* The 32-bit accumulator of `checksum` gives the checksum of RFC 1071 exactly when the 16-bit words add up to
  less than 2^32; every buffer of up to 131074 bytes does, and 131076 bytes of 255 do not.
* The receiver hands `numbytes-1` to the parser, so the last data byte of every message is dropped
  (`receiver_socket/src/receiver_socket.cc:69`).
* Losing one frame 254 is enough to shift one queue against the others by an epoch
  (`AlignmentExact.LosingLastFrameMisaligns`). `AlignmentExact.MergeAlignedExact` says exactly which losses the
  merge survives.
* A `Channel` shares one condition variable and notifies one thread. It can lose a wake-up for some numbers of
  producers and consumers and not for others; `ChannelWakeup.NoLostWakeupExact` says for which.
* A `SharedQueue` loses no wake-up unless at least two consumers share it and call `front`: `front` uses up
  a notification without taking the value.
* `put` does not look at `closed_`, so an empty result of `next` is permanent exactly as long as no put
  completes.
* The documented rule that callbacks make no server calls is what keeps the server free of deadlock, exactly so
  for calls that lock the client list.
* `close` can miss a client: `acceptClient` starts the receive thread before it locks the list
  (`Locking.LateClientStaysOpen`).

## Model

| member | source | states |
|---|---|---|
| Wire.PrintReadFrame | sender_socket/src/sender_socket.cc:57-58 | a frame number below 256 prints as the two characters of "0123456789abcdef" for its halves, reading them back in base 16 gives the number, and no other number prints the same |
| Wire.DigitsRead | channel/src/fpga_packet.cc:19 | exactly the characters of "0123456789abcdef" and "0123456789ABCDEF" are read, each as its position |
| Wire.ReadFrameIsStoi | channel/src/fpga_packet.cc:16-19 | on two characters the reader does what `std::stoi` in base 16 does in general: spaces, a sign, a prefix, then as many digits as follow, and a failure without any |
| Wire.MessageIsPrinted | sender_socket/src/sender_socket.cc:57-60 | a message is, character for character, "[", the id, "]---> ", the two digits and the payload |
| Wire.SuccessesCount | sender_socket/src/sender_socket.cc:64-72 | the number that decides the next frame is the number of sends that succeeded |
| Wire.StartTransmitting | sender_socket/src/sender_socket.cc:55-78 | whatever sends fail, what gets through is exactly the attempts that succeed, in order; the n-th of them carries n mod 255, each attempt carries the number of successes before it mod 255, and a failed attempt is repeated with the same message |
| Wire.ParsePacket | channel/src/fpga_packet.cc:7-26 | the parser's loops select the id, the frame number and the data by the fixed offsets, or fail on an unreadable frame number |
| Wire.FormatParse | channel/src/fpga_packet.cc:7-26 | parsing a formatted message with its length minus one gives back id and frame and all but the last data byte, whatever follows in the buffer |
| Wire.SizeFilter | receiver_socket/src/receiver_socket.cc:67 | with a 10-byte id the filter accepts exactly the messages whose payload has 6144 bytes |
| Wire.StartReceiving | receiver_socket/src/receiver_socket.cc:55-80 | the loop pushes exactly the accepted packets of the arrivals, in order, up to the first arrival that makes the parser throw, although its buffer is reused |
| Wire.StaleBytesIgnored | receiver_socket/src/receiver_socket.cc:57-69 | bytes left in the buffer by earlier datagrams do not affect the packet that is parsed |
| Wire.DeliversExactly | receiver_socket/src/receiver_socket.cc:61-73 | a packet is pushed if and only if the datagram is not outgoing, has 6163 bytes, the id at 1..10 and a readable frame number at 17 and 18; with an unreadable one of that length and direction the parser throws |
| Wire.ReceivedAreDelivered | receiver_socket/src/receiver_socket.cc:67-73 | every pushed packet has the expected id and 6143 data bytes |
| Wire.ReceivedInOrder | receiver_socket/src/receiver_socket.cc:55-80 | what is pushed comes from exactly the arrivals that pass, one packet each, in the order of arrival |
| Wire.ReceiverRecoversStream | receiver_socket/src/receiver_socket.cc:55-80 | under any loss, noise and foreign traffic, as long as the parser has not thrown, the receiver pushes every message of the sender that arrives, and exactly those, in order, with frame n mod 255 and the payload without its last byte, if and only if no other arrival has the direction, length, id and a readable frame number of one |
| Checksum.Checksum | concatinator/src/concatinator.cc:7-22 | the loop with its 32-bit accumulator, odd last byte and two folds computes the deferred-carry checksum of the bytes |
| Checksum.OddIsPadded | concatinator/src/concatinator.cc:15-17 | an odd last byte counts as if a zero byte followed it |
| Checksum.FoldIsReduce | concatinator/src/concatinator.cc:18-19 | two folds are enough: every 32-bit sum ends as 0 for 0 and as ((s-1) mod 65535)+1 otherwise |
| Checksum.ChecksumIsOnesComplement | concatinator/src/concatinator.cc:7-22 | for every length an int can hold the result is the complement of the end-around-carry sum of section 1 of RFC 1071 if and only if the words add up to less than 2^32, which holds for every buffer of up to 131074 bytes |
| Checksum.OverflowExample | concatinator/src/concatinator.cc:9-14 | 131076 bytes of 255 overflow the accumulator and get checksum 1 instead of 0 |
| Checksum.FoldOfConcat | concatinator/src/concatinator.cc:12-20 | for all lengths with an even first part, the folded sum of a concatenation is the one's-complement sum of the folded sums if and only if the two accumulators do not overflow together |
| Checksum.ChecksumIgnoresWordOrder | concatinator/src/concatinator.cc:12-20 | any permutation of the 16-bit words leaves the checksum unchanged |
| Checksum.OnesSumOfSwapped | concatinator/src/concatinator.cc:8-13 | reading every word in the other byte order swaps the bytes of the one's-complement sum (section 2(B) of RFC 1071) |
| Checksum.StoredChecksumVerifies | concatinator/src/concatinator.cc:34-37 | a buffer of any even length whose checksum field was computed while it was zero has checksum zero if and only if adding the field does not overflow the accumulator; in the other byte order, if and only if the words do not overflow as read there; up to 131074 bytes neither does |
| Fragment.CreateIpHeader | concatinator/src/concatinator.cc:24-38 | the field assignments leave exactly the header in the first 20 bytes, field by field what they assign and with checksum zero, and touch nothing behind them |
| Fragment.HeaderHolds | concatinator/src/concatinator.cc:26-37 | byte by byte: version and length 0x45, service 0, total length, identification and fragment field with the high byte first, time to live 64, protocol 17, the source address and then the destination address |
| Fragment.FieldBits | concatinator/src/concatinator.cc:31 | the `|` sets bit 13 of the offset and leaves every other bit alone |
| Fragment.FirstHeader | concatinator/src/concatinator.cc:59-62 | the bytes of the first header of a run whose first message needs a second fragment, the checksum field aside |
| Fragment.HeaderVerifies | concatinator/src/concatinator.cc:24-38 | for every address, id, offset, flag and length the finished header has checksum zero, in both byte orders |
| Fragment.SendMessage | concatinator/src/concatinator.cc:113-128 | the send loop emits exactly the fragments of the message from the current offset and leaves the offset 1125 further per fragment |
| Fragment.BuildPacket | concatinator/src/concatinator.cc:114-120 | one iteration lays out header and chunk in the 10000-byte buffer |
| Fragment.HostReadsPacket | concatinator/src/concatinator.cc:113-127 | the j-th packet sent fits the buffer, and a host accepts it and reads the j-th chunk, the low 13 offset bits, a more-fragments flag that is set by a following chunk or by bit 13 of the offset, and the same service, identification, time to live, protocol and addresses in every packet of every run |
| Fragment.ChunksTile | concatinator/src/concatinator.cc:113-118 | the chunks concatenate to the message, none is empty, and all but the last have 9000 bytes |
| Fragment.ReassemblyExact | concatinator/src/concatinator.cc:113-128 | from packets in any order, a host can reassemble the message from a given origin if and only if the datagram starts there in a 13-bit window with the flag bit clear and its length can be written in a 16-bit header field; it can then reassemble nothing else |
| Fragment.HostRebuildsDatagram | concatinator/src/concatinator.cc:63-128 | after n fragments of a run a host can rebuild the next datagram if and only if n is a multiple of 16384 and header and message have at most 65535 bytes |
| Reassembly.ReassembleExact | concatinator/src/concatinator.cc:113-128 | a host that keeps fragments in offset order as packets arrive, in any order and with any repetition, ends with the message if and only if the datagram starts at 0 of a window with the flag bit clear and has at most 65535 bytes |
| Reassembly.ReassembleWhileArriving | concatinator/src/concatinator.cc:113-128 | under that condition such a host has nothing until every packet has arrived, and from then on exactly the message |
| Reassembly.ReassembleAfter | concatinator/src/concatinator.cc:63-128 | after n fragments of a run such a host gets the next datagram if and only if n is a multiple of 16384 and header and message have at most 65535 bytes |
| Reassembly.ReassembleFinds | concatinator/src/concatinator.cc:113-128 | whatever arrives, what such a host gets can be assembled; and as long as no two different fragments start at the same place it gets whatever can be |
| HostOutcome.HostAcceptsExact | concatinator/src/concatinator.cc:63-128 | for any message after any number n of fragments, a host can assemble exactly the chunks of those trails of fragments that follow one another from the start of a window to the last fragment and are no longer than a datagram may be |
| HostOutcome.HostAcceptsTails | concatinator/src/concatinator.cc:63-128 | for messages of up to 8192 fragments that is exactly the tails of the message from a fragment i with n + i a multiple of 16384, short enough for a datagram, for assembling in principle and for the host that keeps fragments in order |
| Merge.MatchingIsComplete | concatinator/src/concatinator.cc:92-105 | the second pass collects exactly the fronts that carry the minimum |
| Merge.RoundsMerge | concatinator/src/concatinator.cc:66-111 | rounds over queue positions emit a prefix of the reference merge, and the merge of what they leave is the rest |
| Merge.StuckIsComplete | concatinator/src/concatinator.cc:74-84 | when some queue has run out the whole merge has been emitted |
| Merge.RoundsKeep | channel/include/channel/shared_queue.hpp:191-198 | pushes behind what was there change no round that has taken place |
| Merge.MergeIsMonotone | concatinator/src/concatinator.cc:66-111 | longer histories only append to the merge |
| Merge.RoundsConserve | concatinator/src/concatinator.cc:92-105 | projected onto a queue, the emitted groups are exactly the packets consumed from it, in order |
| AlignmentExact.AlignedUnderLoss | concatinator/src/concatinator.cc:74-105 | if histories are subsequences of the stream that keep each epoch's last frame, then at every loop head all fronts are in one epoch, outputs strictly increase in (epoch, frame), and each holds exactly the surviving packets of its (epoch, frame) in queue order |
| AlignmentExact.LosingLastFrameMisaligns | concatinator/src/concatinator.cc:74-105 | in any epoch and in any one of two or more otherwise lossless queues, losing a single frame 254 leaves that queue alone in the round with frame 0 of the next epoch while every other queue still holds its frame 254 |
| AlignmentExact.RoundAlignedExact | concatinator/src/concatinator.cc:74-105 | whatever has been lost, a round consumes exactly the fronts of the earliest stamp if and only if every front of a later epoch has a larger frame number |
| AlignmentExact.MergeAlignedExact | concatinator/src/concatinator.cc:66-111 | for any streams and any losses these are equivalent: every round that can ever take place consumes exactly the fronts of the earliest stamp; every run emits strictly increasing (epoch, frame) with exactly the surviving packets of each; and at every cut of the histories the fronts of later epochs have larger frame numbers |
| AlignmentExact.KeepingLastFramesIsEnough | concatinator/src/concatinator.cc:66-111 | histories that keep every frame 254 of the epochs they have passed meet that condition |
| AlignmentExact.SortedMerge | concatinator/src/concatinator.cc:74-105 | if frame numbers increase in every history, emitted numbers strictly increase and each group holds every packet of its number across all queues |
| Alignment.LosslessLockstep | sender_socket/src/sender_socket.cc:67-72 | without loss all queues have equal consumed counts at every loop head, and the n-th output is the n-th packet of every queue under frame n mod 255 |
| Message.DecodeEncode | concatinator/src/concatinator.cc:107-109 | the message of n delivered packets has 9 + 6153 n bytes and decodes to the ids, the frame number and the data in order |
| Message.EncodeInjective | concatinator/src/concatinator.cc:107-109 | equal messages come from groups with equal ids, frame number and data |
| Message.EncodeIsPrinted | concatinator/src/concatinator.cc:88-109 | a message is, character for character, "[", the ids, "]---> ", two lower-case digits and the data |
| Message.SendableExactly | concatinator/src/concatinator.cc:107 | the guard passes unless all ids or all data are empty |
| Concatinator.PushInvariant | channel/include/channel/shared_queue.hpp:191-198 | a push at any moment of a round keeps the loop's invariant |
| Concatinator.ScanInvariant | concatinator/src/concatinator.cc:75-84 | a scan step keeps the running minimum equal to the least frame of the fronts seen, whose queues cannot change before they are popped |
| Concatinator.CollectInvariant | concatinator/src/concatinator.cc:92-100 | the front read in the second pass is the one the first pass read, and a matching one is appended |
| Concatinator.PopInvariant | concatinator/src/concatinator.cc:102 | the packet that is popped is the one that was appended |
| Concatinator.SendInvariant | concatinator/src/concatinator.cc:107-130 | the group at the end of the round is the round's group over the fronts at its start, and the packets sent are the fragments of its message |
| Concatinator.RunInvariant | concatinator/src/concatinator.cc:66-134 | every reachable state satisfies the invariant, whatever the interleaving with pushes |
| Concatinator.OutputIsPrefixOfMerge | concatinator/src/concatinator.cc:66-134 | in every reachable state the finished rounds are a prefix of the merge of the push histories and the wire holds exactly the fragments of their messages |
| Concatinator.SameHistoriesAgree | concatinator/src/concatinator.cc:66-134 | two runs with the same push histories emit prefix-comparable rounds and packets |
| Reachability.RoundsAreReachable | concatinator/src/concatinator.cc:66-134 | every round of the merge takes place in some run: for any histories and any number of rounds they allow, a run pushes exactly the histories and has emitted exactly those rounds |
| Concatinator.BlockedIsComplete | channel/include/channel/shared_queue.hpp:38-48 | the thread only ever blocks in the first pass, and when it does the whole merge of what was pushed has been emitted |
| Concatinator.Conservation | concatinator/src/concatinator.cc:92-111 | in every reachable state each queue's history is what the groups and the current message hold of it, followed by what is left in the queue |
| Concatinator.NothingSuppressed | concatinator/src/concatinator.cc:107 | with packets as the receivers deliver them the guard never drops a round |
| Concatinator.OffsetCountsPackets | concatinator/src/concatinator.cc:127 | the offset is 1125 times the number of packets sent since the thread started |
| Concatinator.DatagramOnWire | concatinator/src/concatinator.cc:113-128 | the packets of the j-th message are a segment of what was sent and are its fragments from base 1125 times the number of packets before it |
| Concatinator.Thread.AddQueue | concatinator/src/concatinator.cc:137-139 | adds one empty queue to a thread that has not started |
| Concatinator.Thread.ReceiveOne | channel/include/channel/shared_queue.hpp:191-198 | appends one packet to one queue and changes nothing else |
| Concatinator.Thread.Receive | receiver_socket/src/receiver_socket.cc:71-75 | a batch of arrivals is a sequence of pushes, one for each arrival and in their order, and keeps every earlier front |
| Concatinator.Thread.Front | channel/include/channel/shared_queue.hpp:38-48 | waits through pushes until the queue has a front and returns it without removing anything; only an exhausted schedule leaves it waiting |
| Concatinator.Thread.FindLeast | concatinator/src/concatinator.cc:74-84 | the first pass under any schedule of pushes is a sequence of steps that ends with the minimum |
| Concatinator.Thread.CollectLeast | concatinator/src/concatinator.cc:91-105 | the second pass collects the ids and data of the members that the step system records |
| Concatinator.Thread.Round | concatinator/src/concatinator.cc:66-134 | one iteration of the loop body is a run of steps from one loop head to the next, or ends waiting when the schedule does |
| Concatinator.Thread.Emit | concatinator/src/concatinator.cc:107-130 | guard and send loop together are the one step that ends a round |
| Concatinator.Thread.StartConcatinator | concatinator/src/concatinator.cc:42-135 | for every schedule of pushes, once it is over and the thread waits, each queue has been given the packets addressed to it in the order of arrival, the rounds are exactly the merge of everything pushed, and the packets sent are exactly the fragments of their messages |
| Concatinator.PushedInOrder | channel/include/channel/shared_queue.hpp:191-196 | a batch appends to a queue exactly the packets addressed to it, in the order of arrival |
| Concatinator.PushBatchConcat | channel/include/channel/shared_queue.hpp:191-196 | two batches one after the other are their concatenation |
| Concatinator.ScheduleInOrder | channel/include/channel/shared_queue.hpp:191-196 | a whole schedule gives a queue exactly the packets addressed to it, in the order of arrival |
| Pipeline.HostRecoversGroup | concatinator/src/concatinator.cc:87-128 | end to end for a group of delivered packets: a host can rebuild the message if and only if the fragments sent before are a multiple of 16384 and there are at most ten packets, and then whatever it rebuilds decodes to the group |
| Pipeline.HostRecoversMessage | concatinator/src/concatinator.cc:63-128 | for every message of every run: which segment of the sent packets is its own, and exactly when a host that gets that segment in any order can rebuild it |
| Pipeline.DeliveryIsStreamed | receiver_socket/src/receiver_socket.cc:55-80 | what receivers push from links on which messages arrive in order is a subsequence of each sender's stream |
| Pipeline.DeliveryKeepsWraps | receiver_socket/src/receiver_socket.cc:55-80 | links that lose no frame 254 deliver histories that keep every last frame |
| Pipeline.PipelineAlignedExact | concatinator/src/concatinator.cc:66-134 | for such links, whatever they lose, all runs fed by them are aligned if and only if at every cut of the deliveries the fronts of later epochs have larger frame numbers |
| Pipeline.PipelineAligned | concatinator/src/concatinator.cc:66-134 | in every run fed by working links the rounds are aligned, no message is dropped, and each decodes to the packets of its round |
| Pipeline.SenderToHost | concatinator/src/concatinator.cc:42-135 | from senders to decoded groups: in every run fed by working links the rounds have strictly increasing stamps, the members of each are exactly the messages sent with its stamp that arrived, in queue order, and a host that gets a round's packets in any order recovers exactly its ids, frame number and data if and only if the packets sent before are a multiple of 16384 and it has at most ten members |
| Pipeline.PipelineLockstep | concatinator/src/concatinator.cc:66-134 | without loss, in every run the n-th round has frame n mod 255 and holds, in queue order, the id and the payload without its last byte of the n-th message of every sender |
| SharedQueue.RunIsGood | channel/include/channel/shared_queue.hpp:180-198 | for any number of pushers and poppers a sleeping consumer implies queue length at most pending notifications plus signalled waiters; a single consumer may mix `front` and `pop_front`; popped values are the pushed ones in order |
| SharedQueue.PeekLosesWakeup | channel/include/channel/shared_queue.hpp:38-48 | with two consumers that call `front` some run leaves one asleep on a non-empty queue with no notification to come |
| SharedQueue.NoLostWakeupExact | channel/include/channel/shared_queue.hpp:38-198 | no run loses a wake-up if nobody pushes, nobody calls `front` or there is at most one consumer; when no thread both pushes and consumes, only if |
| SharedQueue.SpuriousIsHarmless | channel/include/channel/shared_queue.hpp:38-48 | any sleeper may wake up for nothing, and if the queue is empty it goes back to sleep with nothing changed |
| SharedQueue.FrontIsStable | channel/include/channel/shared_queue.hpp:38-48 | in a run without pops the contents only grow at the back |
| SharedQueue.PopTakesWhatFrontReturned | channel/include/channel/shared_queue.hpp:38-48 | the next pop of a single consumer takes exactly the value its `front` returned, whatever pushes, notifications and wake-ups come between |
| QueueSystem.MonitorsRefineQueues | concatinator/src/concatinator.cc:66-134 | every run of the concatinator over real queue monitors, with blocking, late notifications and spurious wake-ups, is a run over plain queues with the same contents, histories and output, and no queue loses a wake-up |
| QueueSystem.PlacedStep | channel/include/channel/shared_queue.hpp:38-48 | the thread is only ever blocked in the queue it has reached and in the call its pass makes |
| QueueSystem.QuietIsComplete | concatinator/src/concatinator.cc:66-134 | when neither the thread nor a notification can take a step, everything pushed is merged and on the wire as far as it can be |
| SharedQueue.Monitor.PushBack | channel/include/channel/shared_queue.hpp:191-196 | from a reachable state to a reachable one: appends the value, and with consumers that only pop the queue is then no longer than the notifications to come while anyone sleeps; no wake-up is lost |
| SharedQueue.Monitor.NotifyOne | channel/include/channel/shared_queue.hpp:197 | signals some waiter if there is one, and reaches a state in which no wake-up is lost |
| SharedQueue.Monitor.PopFront | channel/include/channel/shared_queue.hpp:180-189 | takes the oldest pushed value that has not been popped, or waits if and only if there is none; no wake-up is lost |
| SharedQueue.Monitor.PeekFront | channel/include/channel/shared_queue.hpp:38-48 | returns the oldest pushed value that has not been popped and leaves it, or waits if there is none; no wake-up is lost |
| Channel.HistoryInOrder | channel/include/channel/channel.hpp:21-62 | for any number of threads puts are the taken values followed by the buffer, the buffer never exceeds `max_length_`, and nobody waits in `next` on a closed channel |
| Channel.NextDelivers | channel/include/channel/channel.hpp:21-36 | `next` returns the oldest value not yet taken, and empty if and only if the channel is closed and every earlier put has been delivered |
| Channel.EmptyIsPermanent | channel/include/channel/channel.hpp:48-62 | once `next` has returned empty it keeps doing so if and only if no put completes |
| ChannelMonitor.Monitor.PutSection | channel/include/channel/channel.hpp:48-56 | from a reachable state to a reachable one: the put completes if and only if fewer than `max_length_` values are out, somebody is then notified if anybody waits, otherwise the thread waits with its value; in safe sizes no wake-up is lost |
| ChannelMonitor.Monitor.NextSection | channel/include/channel/channel.hpp:21-36 | returns the oldest put not yet taken, or empty on a closed channel with everything taken, or waits; the assertion of the source never fails and in safe sizes no wake-up is lost |
| ChannelMonitor.Monitor.CloseChannel | channel/include/channel/channel.hpp:58-62 | closes, leaves nobody waiting and takes nothing, and reaches a state in which order, capacity and, in safe sizes, wake-ups are kept |
| ChannelWakeup.InvariantPut | channel/include/channel/channel.hpp:48-56 | a put keeps the counting invariant in every safe size |
| ChannelWakeup.InvariantNext | channel/include/channel/channel.hpp:21-36 | a next keeps the counting invariant in every safe size |
| ChannelWakeup.UnsafeLoses | channel/include/channel/channel.hpp:21-56 | in every other size some sequence of counted steps loses a wake-up |
| ChannelWakeup.LiftStep | channel/include/channel/channel.hpp:21-56 | every open counted step is a section of some thread |
| ChannelWakeup.NoLostWakeupExact | channel/include/channel/channel.hpp:21-62 | no run loses a wake-up if the capacity and thread numbers are safe: no room or one kind missing, at most `capacity` threads of each kind, or one thread of one kind and fewer than twice the capacity of the other; when no thread is both a producer and a consumer, only if |
| ChannelWakeup.OneProducerOneConsumer | channel/include/channel/channel.hpp:21-62 | with one producer, one consumer and any closers, an unsignalled waiting consumer implies an empty open buffer, such a producer a full one, and never both |
| Reaper.EraseOne | tcp_server_client/src/tcp_server.cpp:46-50 | erasing an element leaves the list without that client, the rest in order |
| Reaper.WithoutIsFilter | tcp_server_client/src/tcp_server.cpp:41-52 | the remaining list holds exactly the clients not removed |
| Reaper.TcpServer.AcceptClient | tcp_server_client/src/tcp_server.cpp:193-202 | appends one open client to the list |
| Reaper.TcpServer.FindDead | tcp_server_client/src/tcp_server.cpp:43-44 | finds a disconnected client, and every client before it was connected when the search started, whatever disconnects meanwhile |
| Reaper.TcpServer.RemoveDead | tcp_server_client/src/tcp_server.cpp:42-51 | one pass of the find and erase loop removes at most one client, a disconnected one, closed once; it ends the loop if and only if the position is then at the end, also after erasing the last element, and then all that is left was connected when the sweep started |
| Reaper.TcpServer.Sweep | tcp_server_client/src/tcp_server.cpp:37-56 | the sweep ends; every client dead at its start is removed, only disconnected ones are, each is closed exactly once, and the rest stay open and in order |
| Reaper.TcpServer.CloseClients | tcp_server_client/src/tcp_server.cpp:273-284 | every client still listed is closed, so every client listed so far has been closed exactly once, and the list is empty |
| Reaper.Client.Close | tcp_server_client/src/client.cpp:91-107 | clears the flag and ends the receive thread |
| Locking.InvariantStep | tcp_server_client/src/tcp_server.cpp:37-118 | every step keeps each mutex with exactly one holder and every thread being joined told to stop |
| Locking.RunInvariant | tcp_server_client/src/tcp_server.cpp:271-284 | the invariant holds in every reachable state |
| Locking.WaitingDescends | tcp_server_client/src/tcp_server.cpp:271-284 | a waiting thread only waits for threads of lower rank; in particular `close` has joined the remover before it takes the client mutex |
| Locking.ChainDescends | tcp_server_client/src/tcp_server.cpp:90-117 | along every chain of waiting threads the rank falls |
| Locking.CallbackDeadlocks | tcp_server_client/README.md:105 | a callback whose server call locks the client list, while `close` joins its thread, deadlocks with it |
| Locking.DeadlockFreeExact | tcp_server_client/README.md:105 | no reachable state has a cycle of threads waiting for each other if and only if callbacks make no server calls that lock the client list |
| Locking.AwaitedMoves | tcp_server_client/src/client.cpp:49-107 | a thread that others wait for and that waits for nobody has a step to take |
| Locking.NobodyIsStuck | tcp_server_client/src/tcp_server.cpp:37-118 | in every reachable state the chain of waits from any waiting thread ends at a thread that can take a step |
| Locking.CloseCanFinish | tcp_server_client/src/tcp_server.cpp:271-284 | whatever the threads have done since `close` began and whoever holds what, the run goes on to a state in which `close` has returned: the stop flag ends the remover, the lock becomes free and every joined thread ends, with a distance that falls at every step |
| Locking.RunStopKept | tcp_server_client/src/tcp_server.cpp:58-65 | in every run the remover has ended, and `close` waits for it, only after it has been told to stop |
| Locking.NoSweepAfterStop | tcp_server_client/src/tcp_server.cpp:37-56 | once told to stop between two sweeps the remover never starts another one, however the run goes on, and its next check ends it |
| Locking.DeadCanBeReaped | tcp_server_client/src/tcp_server.cpp:41-52 | in the middle of a sweep every dead client on the list can be found, joined and erased, whatever its receive thread is doing and whoever holds the subscribers |
| Locking.JoinedIsErased | tcp_server_client/src/tcp_server.cpp:46-50 | what is erased is the dead client that has been joined, and nothing else |
| Locking.DisconnectionIsLast | tcp_server_client/src/client.cpp:49-77 | in every run nothing is published about a client after its disconnection |
| Locking.CallReturns | tcp_server_client/src/tcp_server.cpp:90-118 | a callback whose server call got the client list returns and frees both locks |
| Locking.CloseEndsListed | tcp_server_client/src/tcp_server.cpp:271-284 | in every run, when `close` empties the list the receive thread of every client on it has ended |
| Locking.LateClientStaysOpen | tcp_server_client/src/tcp_server.cpp:193-202 | a client that `acceptClient` has started but that gets the lock only after `close` is listed, connected and running afterwards |

## Left out

- Socket setup, `ioctl`, `select`, `usleep`, `inet_addr` and console output: addresses are four bytes, a send is a success or failure given as a parameter, and a receive is an arbitrary sequence of arrivals.
- Failures of `sendto` in the concatinator: the code only prints a message, so `wire` is the sequence of attempted sends.
- `StartGrabbing`, `AddToFile` and the wiring in `main.cc`.
- `TcpClient`, the example programs, `sendToAllClients`, `sendToClient`, message routing by IP address and `pipe_ret_t`.
- Unlocked accessors, the undefined `push_back(T&&)` and commented-out code.
- The meaning of the reserved and don't-fragment bits, which offsets from 16384 on set: `Fragment.ReadFragment` reads only the 13 offset bits and the more-fragments flag.
- Reassembly across datagrams: all of them carry the same identification, addresses and protocol (`Fragment.HostReadsPacket`), which is all a host tells datagrams apart by, so every result about hosts is about the packets of one datagram.
- The 32-bit width of `offset`: it overflows after about 1.9 million fragments; only its low 16 bits are ever written.
- Host byte order: 16-bit words of the checksum are read little-endian; `Checksum.OnesSumOfSwapped` and `Fragment.HeaderVerifies` say that validity does not depend on it.
- `std::stoi` beyond two characters, and everything after it has thrown: nothing catches the exception, so one message of 6163 bytes with an unreadable frame number ends not only its receiver but the whole process. `Wire.StartReceiving` stops at that arrival, and a working link in `Pipeline` has none.
- The link layer: the concatinator's socket is a raw packet socket and its buffers start with the IP header, without a link header; the model reads what is sent as IP packets.
- Concatinator.Thread.StartConcatinator: the run is observed until a finite schedule of pushes is over and the thread waits for more, because the loop itself only ends when `isActive` is cleared; the results about runs hold at every moment of every finite run.
- Concatinator.Thread.AddQueue: the same queue object registered twice (aliasing) is not captured; queues are distinct.
- Concatinator.Thread.Front: it checks the queue again after every batch instead of sleeping; that sleeping in the queue's monitor changes nothing is `QueueSystem.MonitorsRefineQueues`.
- A thread that is both a producer and a consumer of one queue or channel: it is counted once in each role, which adds runs it could not have; the safe configurations are claimed for such threads, the losing runs are not.
- Fairness and starvation: the results about wake-ups, locks and `close` say that some step or some continuation is always possible, not that a scheduler takes it.
- Reaper.TcpServer.Sweep: the disconnects between checks are given as a schedule; freeing the removed client and failures of `::close` are left out, and clients are identified by object.
- Reaper.TcpServer.CloseClients: speaks of listed clients; `acceptClient` is atomic in `Reaper`, so a client that has been started and is not yet listed when `close` runs is not covered there. `Locking`, which separates the two steps, shows what happens to it (`Locking.LateClientStaysOpen`).
- Locking.DeadlockFreeExact: the callbacks it lets call the server make calls that lock the client list, such as `sendToAllClients`, `sendToClient` and `printClients`. A callback that calls `subscribe` would lock the subscriber mutex that its own thread holds, and one that calls `close` would join its own thread; these two self-waits are not steps of the model.
- Locking.InvariantStep: the remover may end a sweep at any moment (which client is dead is the subject of `Reaper`), one thread calls `close`, and exceptions that leave a thread are not part of the model.
