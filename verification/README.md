# Models of a networking repository, with proofs

Five programs of the repository are modelled in Dafny, each from its own source files, and what they are for is proved
over all inputs and all runs.

- **Selective repeat** (`rdt_sol.c`). `Packets`, `SelectiveRepeat*`. Sender and receiver with rings of ten slots, one
  timeout per packet, an overflow list, an additive checksum, and a medium that loses packets or damages one field. The
  handlers are functions on values (`SelectiveRepeat`), and again methods over arrays and linked nodes that are proved
  equal to them (`SelectiveRepeatCode`) and run against each other (`SelectiveRepeatRun`). One inductive invariant over
  both ends and everything in flight gives exact delivery and shows that the source's three "BUG" branches are
  unreachable. The model lets the medium deliver packets in any order and the timer tick at any time, so what is proved
  of all runs and all schedules holds for the emulator's first-in first-out medium in particular;
  `SelectiveRepeatSchedules` proves progress under every schedule, while `SelectiveRepeatProgress.ProgressIsPossible`
  only gives some schedule, which the emulator's delays may rule out. `SelectiveRepeatHistory` tells what A sends, and
  when, from the history of a run alone.
- **Alternating bit and its emulator** (`rdt_abp.c`). `Events*`, `AlternatingBit*`. The event list as a sorted sequence
  and as the doubly linked list the code splices in place; simulation time is a real number and each random draw a
  parameter. A ignores acknowledgement numbers and shares its sequence number with B, so the proof is about time: two
  hops of at most ten units fit the timeout of twenty, and of two events at the same time the one inserted later comes
  first. The timeout is a field of the modelled state, so that the least value that works can be stated; the program
  itself always uses its constant. `AlternatingBitProgress` shows that every wait ends once the medium behaves, and
  `AlternatingBitOffers` what is offered, when, and which of it A accepts.
- **Hamming code, interleaving and CRC** (`err_correc.cpp`, `crc.py`). `Binary`, `Hamming`, `Crc`, `CrcScript`,
  `Pipeline`, `PipelineCode`. Below, m is the number of characters in a row and r the number of powers of two up to 8m.
  The encoder inserts r check bits, but the decoder removes one for every power of two up to 8m+r; both agree exactly
  if 8m+r < 2^r, and m = 31 is the first value for which they do not.
- **Distance-vector routing** (`Routing.cpp`). `Routing*`. A network of routers started from one topology file; every
  update ever sent may arrive never, once, again, or late. `RoutingUpdates` says what the header of an update does and
  what routers announce and remember.
- **CTANGLE's output routine** (`ctangle.c`). `Tangle*`. Replacement texts are packed into bytes and chained; the
  explicit stack of byte positions is proved to write what the recursive expansion of the program says, for every
  program; nesting is counted in levels of the stack, so that cyclic programs are covered. `TangleMarks` says what
  expansions look like.

Where the code and its comments disagree the code is modelled. The comment above `A_output` in `rdt_sol.c` describes a
first-in first-out overflow list; in fact `free_send_buf` pops a message that `A_output` appends at the tail before
popping the head. A run of messages of which no two in a row are equal, such as the program's own, keeps layer-5 order
exactly if the oldest outstanding packet is never acknowledged while two or more messages are queued
(`SelectiveRepeatOrder.RunOrderExactly`), and `SelectiveRepeatLostOrder` gives a run that loses it. Order of delivery
is therefore stated relative to the sequence numbers A assigns as well, and the list's content as a multiset. In
`Routing.cpp` a route counts as unreachable only when its cost is exactly 999999 (INF), while Case 1 and large link
costs can produce costs above it. The results speak of costs below INF; `RoutingLures` says exactly for which line,
which update and which runs the code's own reading of reachability fails, and `RoutingDeadRoute` gives a run in which
it happens.

`*Code`, `SelectiveRepeatRun`, `TangleOutput` and `TangleMemory` hold the imperative forms; each method's contract
gives its new state through the function on values that the theorems are about. `dafny verify dfyconfig.toml` checks
the project.

## Model

| member | source | states |
|---|---|---|
| SelectiveRepeatSafety.DeliveryIsExact | Reliable Transport Protocol/Offline/rdt_sol.c:286-516 | In every run under loss, single-field damage, resending and any timer schedule, B hands layer 5 exactly the payloads A first sent for numbers 0..B_base-1, each once and in that order; A_base never passes B_base. |
| SelectiveRepeatSafety.WindowsAgree | Reliable Transport Protocol/Offline/rdt_sol.c:317-490 | In every reachable state A_base <= B_base <= A_nextseq <= A_base+N, every intact data packet fits B's window, every intact ack names a packet B has, and none of the three BUG branches has ever been taken. |
| SelectiveRepeatSafety.MessagesAreConserved | Reliable Transport Protocol/Offline/rdt_sol.c:248-355 | As multisets, the messages layer 5 gave equal those numbered plus those still in the overflow list; a non-empty list means a full window. |
| SelectiveRepeatSafety.RingsAreMaps | Reliable Transport Protocol/Offline/rdt_sol.c:220-245 | Every slot of either ring stands for exactly one sequence number of the window: A's keeps the packet first sent for it, flagged sent or acked, or is free; B's is free at its base and otherwise holds only the packet sent under that number. |
| SelectiveRepeatSafety.DistinctSlots | Reliable Transport Protocol/Offline/rdt_sol.c:231-243 | Two sequence numbers closer than N never share a slot. |
| SelectiveRepeatSafety.RunIs | Reliable Transport Protocol/Offline/rdt_sol.c:253-262 | The scan counts exactly the leading run of slots with the flag, and stops at the first slot without it. |
| SelectiveRepeatSafety.FreedIs | Reliable Transport Protocol/Offline/rdt_sol.c:260-266 | Freeing k slots clears the first k numbers of the window, makes their slots the last k of the next window, and leaves the others alone. |
| SelectiveRepeatSafety.OutputKeeps | Reliable Transport Protocol/Offline/rdt_sol.c:286-355 | Accepting a message keeps the sender's invariant, sends the next number or nothing, and announces no ack. |
| SelectiveRepeatSafety.FreeSendBufKeeps | Reliable Transport Protocol/Offline/rdt_sol.c:248-278 | Sliding the send window over acked slots and refilling it keeps the sender's invariant, moves the base only over acked numbers, to the first unacked one. |
| SelectiveRepeatSafety.FreeSendBufAccounts | Reliable Transport Protocol/Offline/rdt_sol.c:268-277 | Popping, re-appending and popping again loses and invents no message. |
| SelectiveRepeatSafety.SenderInputKeeps | Reliable Transport Protocol/Offline/rdt_sol.c:363-399 | An ack keeps both invariants; an intact ack for the base moves the base. |
| SelectiveRepeatSafety.ResendKeeps | Reliable Transport Protocol/Offline/rdt_sol.c:402-424 | A timer tick keeps the sender's invariant and puts only first-sent packets on the wire again. |
| SelectiveRepeatSafety.ResendIsExact | Reliable Transport Protocol/Offline/rdt_sol.c:402-424 | It sends again exactly the first-sent packets of the window that are held unacknowledged and overdue, in order of their numbers, and renews exactly their timeouts; no flag or packet changes. |
| SelectiveRepeatSafety.FreeRecvBufKeeps | Reliable Transport Protocol/Offline/rdt_sol.c:442-464 | Delivering the run at the window base appends exactly the payloads sent under those numbers and forgets no packet held. |
| SelectiveRepeatSafety.ReceiverInputKeeps | Reliable Transport Protocol/Offline/rdt_sol.c:468-516 | A packet at B keeps B's invariant, adds exactly its number to what B has, and is acknowledged exactly when intact. |
| SelectiveRepeatSafety.TransmitSound | Reliable Transport Protocol/Offline/rdt_sol.c:869-940 | An intact packet that comes out of the medium is one that went in. |
| SelectiveRepeatSafety.StepKeeps | Reliable Transport Protocol/Offline/rdt_sol.c:286-516 | Every event keeps the invariant of both ends and of everything in flight. |
| SelectiveRepeatHistory.TickIsExact | Reliable Transport Protocol/Offline/rdt_sol.c:286-424 | In every run a tick hands to layer 3 exactly the numbered packets that no intact ack has come for and that were last handed to it, first or again, more than 20 time units ago, each once and in order; all of it told from the history, not from the ring. |
| SelectiveRepeatHistory.NoEarlyResend | Reliable Transport Protocol/Offline/rdt_sol.c:286-424 | So no tick puts a packet on the wire again before the clock has passed the time it was last sent by more than 20. |
| SelectiveRepeatHistory.FirstResend | Reliable Transport Protocol/Offline/rdt_sol.c:286-424 | From the initial state one message and k ticks without an ack leave exactly one copy on the wire if k <= 20, and more than one otherwise. |
| SelectiveRepeatHistory.BaseIsLeastUnacked | Reliable Transport Protocol/Offline/rdt_sol.c:248-399 | In every run A_base is the least number no intact ack has come for, and a slot of the window is flagged acked exactly if one has come for its number. |
| SelectiveRepeatHistory.PacketsAreConserved | Reliable Transport Protocol/Offline/rdt_sol.c:286-516 | In every run, in either direction, packets handed to layer 3 are those lost, those arrived and those in flight; A's counter of packets to layer 3 counts exactly those handed over. |
| SelectiveRepeatHistory.AcksEcho | Reliable Transport Protocol/Offline/rdt_sol.c:468-516 | In every run an intact packet on its way to A carries one number sent, as both its numbers, and the payload first sent under it. |
| SelectiveRepeatProgress.ProgressIsPossible | Reliable Transport Protocol/Offline/rdt_sol.c:248-516 | From every reachable state some loss-free sequence of ticks and deliveries, at times the model leaves free, leads to a state where every accepted message is delivered and acknowledged, nothing is queued, and nothing new was accepted. |
| SelectiveRepeatSchedules.BaseMovesOn | Reliable Transport Protocol/Offline/rdt_sol.c:248-516 | Without loss and new messages, in whatever order the timer ticks and packets arrive: a round of more ticks than a timeout lasts, at whose end nothing is in flight, has acknowledged the packet that was oldest at its start. |
| SelectiveRepeatSchedules.EveryScheduleSettles | Reliable Transport Protocol/Offline/rdt_sol.c:248-516 | So from every reachable state every sequence of at least as many such rounds as messages were accepted beyond A_base delivers and acknowledges everything, whatever the order of ticks and arrivals in them. |
| SelectiveRepeatSchedules.CompleteIsPossible | Reliable Transport Protocol/Offline/rdt_sol.c:248-516 | From every state of the invariant there is such a round. |
| SelectiveRepeatProgress.TickUntilResent | Reliable Transport Protocol/Offline/rdt_sol.c:402-424 | Enough ticks put the packet at the window base on the wire again, whatever happened to its earlier copies. |
| SelectiveRepeatProgress.Round | Reliable Transport Protocol/Offline/rdt_sol.c:248-516 | One such round moves the base; accepted minus base is the decreasing measure. |
| SelectiveRepeatOrder.RefillTurns | Reliable Transport Protocol/Offline/rdt_sol.c:268-277 | Sliding by k numbers the queue's head k times, each time behind a message put back at the tail: the queue comes out rotated. |
| SelectiveRepeatOrder.TurnedIsFifo | Reliable Transport Protocol/Offline/rdt_sol.c:268-309 | That rotation is first-in first-out exactly when nothing slid or at most one message was queued (if the first two queued messages differ). |
| SelectiveRepeatOrder.OrderIsKeptExactly | Reliable Transport Protocol/Offline/rdt_sol.c:268-309 | Unless the first two queued messages are equal, a step keeps layer-5 order if and only if at most one message is queued or the step does not bring an intact ack of the oldest outstanding packet. |
| SelectiveRepeatOrder.RunOrderExactly | Reliable Transport Protocol/Offline/rdt_sol.c:248-399 | Over a whole run from the start in which layer 5 gives no message twice in a row: numbers are assigned in layer-5 order if and only if no step acknowledges the oldest outstanding packet while two or more messages are queued. |
| SelectiveRepeatOrder.GeneratedOrderExactly | Reliable Transport Protocol/Offline/rdt_sol.c:617-630 | So the same holds in every run of the messages the program generates, letter after letter of the alphabet, however many. |
| SelectiveRepeatOrder.BaseMovesExactly | Reliable Transport Protocol/Offline/rdt_sol.c:251-266 | In every state of the invariant the window base moves if and only if an intact ack of the oldest outstanding packet arrives. |
| SelectiveRepeatOrder.DeliveredInOrder | Reliable Transport Protocol/Offline/rdt_sol.c:248-516 | In every run without such a step B's layer 5 gets a prefix of what A's layer 5 gave, whatever the messages are. |
| SelectiveRepeatLostOrder.OrderCanBeLost | Reliable Transport Protocol/Offline/rdt_sol.c:268-309 | From every initial state there is a run of the program's own messages after which layer-5 order is lost (twelve messages, one ack). |
| SelectiveRepeatCode.MessageList.Append | Reliable Transport Protocol/Offline/rdt_sol.c:87-113 | The linked overflow list: a node is added behind the end pointer; contents gain the message at the tail. |
| SelectiveRepeatCode.MessageList.Pop | Reliable Transport Protocol/Offline/rdt_sol.c:114-131 | The head node is unlinked; null exactly when the list is empty. |
| SelectiveRepeatCode.SenderNode.HandleOutput | Reliable Transport Protocol/Offline/rdt_sol.c:286-355 | The handler over arrays and list has exactly the effect and the packets of the specification function. |
| SelectiveRepeatCode.SenderNode.FreeAcked | Reliable Transport Protocol/Offline/rdt_sol.c:251-266 | The in-place loop frees and slides exactly the acked run. |
| SelectiveRepeatCode.SenderNode.HandleFreeSendBuf | Reliable Transport Protocol/Offline/rdt_sol.c:248-278 | Slide and refill in place, as specified. |
| SelectiveRepeatCode.SenderNode.HandleInput | Reliable Transport Protocol/Offline/rdt_sol.c:363-399 | The ack handler in place, as specified. |
| SelectiveRepeatCode.SenderNode.HandleTimer | Reliable Transport Protocol/Offline/rdt_sol.c:402-424 | The timer handler's loop in place, as specified. |
| SelectiveRepeatCode.ReceiverNode.HandleFreeRecvBuf | Reliable Transport Protocol/Offline/rdt_sol.c:442-464 | The delivery loop in place, as specified. |
| SelectiveRepeatCode.ReceiverNode.HandleInput | Reliable Transport Protocol/Offline/rdt_sol.c:468-516 | The data handler in place, with its acks and deliveries, as specified. |
| SelectiveRepeatRun.Connection.Turn | Reliable Transport Protocol/Offline/rdt_sol.c:286-516 | One event at either end, over arrays and list, and what the medium makes of the packets it sends, as specified. |
| SelectiveRepeatRun.Connection.Simulate | Reliable Transport Protocol/Offline/rdt_sol.c:286-516 | Both ends' code run over any sequence of events: it reaches the state the run-wide theorems speak about, and B's layer 5 has exactly the payloads A numbered below B's base, in that order, with no message lost at A and no BUG branch taken. |
| Packets.CorruptionIsCaught | Reliable Transport Protocol/Offline/rdt_sol.c:151-170 | The additive checksum of a sealed packet matches after the damage of one field exactly when the damage changed nothing. |
| Packets.ChecksumAdds | Reliable Transport Protocol/Offline/rdt_sol.c:151-170 | The checksum counts every byte and both numbers once and nothing else: changing one changes it by the difference, and it is 0 for a packet of zeros. |
| Packets.OneChangeIsCaught | Reliable Transport Protocol/Offline/rdt_sol.c:151-170 | So any change of one byte, one number or the checksum of an intact packet is noticed. |
| Packets.EmergesIntact | Reliable Transport Protocol/Offline/rdt_sol.c:883-940 | The medium yields at most one copy, and an intact one is the original. |
| Packets.CalcChecksum | Reliable Transport Protocol/Offline/rdt_sol.c:151-170 | The loop computes the sum of payload, sequence and ack number. |
| AlternatingBitSafety.DeliveryIsPrefix | Reliable Transport Protocol/Offline/rdt_abp.c:86-208 | In every timed run the messages B delivers are a prefix of those A accepted, at most one behind, and equal whenever A may send; time never goes back. |
| AlternatingBitSafety.TimeoutCoversExactly | Reliable Transport Protocol/Offline/rdt_abp.c:52 | In every run the timer goes off only when nothing is in flight, if and only if the timeout is at least two hops of ten units: 20 is the least value that works. |
| AlternatingBitSafety.OneInFlight | Reliable Transport Protocol/Offline/rdt_abp.c:149-162 | In every timed run at most one packet is in flight over both directions, A's timer runs exactly while A waits, and it only goes off when nothing is in flight. |
| AlternatingBitSafety.PerfectRun | Reliable Transport Protocol/Offline/rdt_abp.c:52-110 | Without loss and damage the timer never goes off and each accepted or delivered message costs one packet. |
| AlternatingBitSafety.NoNeedlessTimeout | Reliable Transport Protocol/Offline/rdt_abp.c:52-110 | Two delays of at most ten units always fit the timeout, ties included, from every steady state on. |
| AlternatingBitProgress.EveryWaitEnds | Reliable Transport Protocol/Offline/rdt_abp.c:86-208 | From every reachable state, whatever was lost before and whatever delays and arrivals are drawn: every continuation without loss or damage comes within a bound (twice the hops still to go, plus the messages still to be offered, plus the events pending) to a point where everything accepted is delivered, nothing new is accepted and A may send. |
| AlternatingBitProgress.WaitCanEnd | Reliable Transport Protocol/Offline/rdt_abp.c:86-208 | So such a continuation exists from every reachable state. |
| AlternatingBitOffers.OffersAreExact | Reliable Transport Protocol/Offline/rdt_abp.c:301-372 | In every run exactly one arrival, for A, is pending while fewer than nsimmax messages have been offered, and none afterwards; each comes 2 * lambda times its draw after the one before; and A accepts exactly the messages that find it ready, in order, message i being the i-th letter text. |
| AlternatingBitOffers.LettersAre | Reliable Transport Protocol/Offline/rdt_abp.c:329-332 | Message n consists of nineteen times the letter 97 + n % 26 and a terminator. |
| AlternatingBitOffers.EndedRunIsComplete | Reliable Transport Protocol/Offline/rdt_abp.c:301-372 | A run whose event list is empty has offered all nsimmax messages, and B has delivered exactly those that found A ready. |
| AlternatingBitOffers.BitsAlternate | Reliable Transport Protocol/Offline/rdt_abp.c:86-208 | In every run A's bit is the parity of the messages A is done with and the shared sequence number that of the messages delivered; the outstanding packet carries the first as both its numbers, B's answer repeats it and begins with a zero byte. |
| AlternatingBitSafety.OutputKeeps | Reliable Transport Protocol/Offline/rdt_abp.c:86-120 | Accepting a message keeps the invariant; while A waits nothing at all changes. |
| AlternatingBitSafety.TimerKeeps | Reliable Transport Protocol/Offline/rdt_abp.c:149-162 | A timeout with nothing in flight puts the last packet (or what the medium makes of it) and a new timer on the event list, nothing else in flight, changes nothing but the event list, and keeps the invariant. |
| AlternatingBitSafety.BInputKeeps | Reliable Transport Protocol/Offline/rdt_abp.c:178-208 | A packet at B (repeated, fresh or damaged) keeps the invariant; a repeated or fresh one is answered with the acknowledgement of the outstanding packet, a damaged one that does not look repeated changes nothing. |
| AlternatingBitSafety.AInputKeeps | Reliable Transport Protocol/Offline/rdt_abp.c:125-147 | An intact answer ends the wait, with everything accepted delivered; a damaged one changes nothing. |
| AlternatingBitSafety.AnswersMatch | Reliable Transport Protocol/Offline/rdt_abp.c:125-147 | In every timed run, an intact packet about to reach A answers the outstanding packet and everything accepted has been delivered, although A never looks at its number. |
| AlternatingBitSafety.SendCore | Reliable Transport Protocol/Offline/rdt_abp.c:574-642 | With nothing on its way to the receiver, a packet is lost or due within ten time units. |
| AlternatingBitSafety.StepKeeps | Reliable Transport Protocol/Offline/rdt_abp.c:86-372 | Every turn of the main loop keeps the invariant that joins protocol, clock and event list. |
| Events.InsertPosition | Reliable Transport Protocol/Offline/rdt_abp.c:459-500 | A new event goes behind exactly the strictly earlier ones: among equal times it comes first. |
| Events.InsertKeepsSorted | Reliable Transport Protocol/Offline/rdt_abp.c:459-500 | Insertion keeps the list sorted and makes exactly the one event a new member. |
| Events.InsertAddsOne | Reliable Transport Protocol/Offline/rdt_abp.c:459-500 | As a multiset the list gains exactly one event. |
| Events.PerformStaysTimely | Reliable Transport Protocol/Offline/rdt_abp.c:301-642 | Every emulator operation keeps the list sorted and nothing due in the past; time never decreases. |
| Events.ChannelIsFifo | Reliable Transport Protocol/Offline/rdt_abp.c:574-642 | In every sequence of operations, what was delivered to one side followed by what is in flight to it is what was entered for it, in order. |
| Events.PacketsAreConserved | Reliable Transport Protocol/Offline/rdt_abp.c:574-642 | Packets handed to layer 3 equal packets lost plus packets scheduled for either side. |
| Events.SendSchedules | Reliable Transport Protocol/Offline/rdt_abp.c:574-642 | A packet that is not lost is due 1 + 9u units after the latest packet on its way to that side, or after now if there is none, and is the only change of the list. |
| Events.PerformKeepsOneTimer | Reliable Transport Protocol/Offline/rdt_abp.c:518-572 | A side never has two timers: starting one that runs changes nothing, starting one that does not gives exactly one, stopping leaves none, and no other operation but taking an event changes their number. |
| Events.DamagedAreCounted | Reliable Transport Protocol/Offline/rdt_abp.c:574-642 | ncorrupt counts exactly the packets sent damaged. |
| EventsCode.InsertAt | Reliable Transport Protocol/Offline/rdt_abp.c:459-500 | Inserting where the scan stops is the recursive insertion. |
| EventsCode.StopAt | Reliable Transport Protocol/Offline/rdt_abp.c:518-547 | Removing where the scan stops removes the first timer of that side, and nothing if there is none. |
| EventsCode.SplicedIsLinked | Reliable Transport Protocol/Offline/rdt_abp.c:493-499 | After the four pointer writes the prev and next pointers agree along the longer list. |
| EventsCode.BypassedIsLinked | Reliable Transport Protocol/Offline/rdt_abp.c:527-542 | After the pointer writes of a removal the prev and next pointers agree along the shorter list. |
| EventsCode.EventList.InsertEvent | Reliable Transport Protocol/Offline/rdt_abp.c:459-500 | The doubly linked list stays acyclic and consistent in both directions, and its contents are those of the sorted insertion. |
| EventsCode.EventList.TakeHead | Reliable Transport Protocol/Offline/rdt_abp.c:303-308 | The head is unlinked; the rest stays linked. |
| EventsCode.EventList.RemoveTimer | Reliable Transport Protocol/Offline/rdt_abp.c:518-547 | Cancelling unlinks the first timer of that side, in each of the four pointer cases. |
| EventsCode.EventList.TimerIsSet | Reliable Transport Protocol/Offline/rdt_abp.c:555-562 | The scan finds a timer exactly if there is one. |
| EventsCode.EventList.FindLastArrival | Reliable Transport Protocol/Offline/rdt_abp.c:618-622 | The scan finds the arrival time of the last packet on its way to that side, or the current time. |
| AlternatingBitCode.Simulator.HandleToLayer3 | Reliable Transport Protocol/Offline/rdt_abp.c:574-642 | Loss, delay and damage on the linked list, as specified. |
| AlternatingBitCode.Simulator.HandleAOutput | Reliable Transport Protocol/Offline/rdt_abp.c:86-120 | The routine over globals and the linked list, as specified. |
| AlternatingBitCode.Simulator.HandleAInput | Reliable Transport Protocol/Offline/rdt_abp.c:125-147 | The routine over globals and the linked list, as specified. |
| AlternatingBitCode.Simulator.HandleATimer | Reliable Transport Protocol/Offline/rdt_abp.c:149-162 | The routine over globals and the linked list, as specified. |
| AlternatingBitCode.Simulator.HandleBInput | Reliable Transport Protocol/Offline/rdt_abp.c:178-208 | The routine over globals and the linked list, as specified. |
| AlternatingBitCode.Simulator.Turn | Reliable Transport Protocol/Offline/rdt_abp.c:301-372 | One turn of the main loop over globals and the linked list, as specified. |
| AlternatingBitCode.Simulator.Simulate | Reliable Transport Protocol/Offline/rdt_abp.c:301-372 | The main loop reaches exactly the state the run-wide theorems speak about; from an initial state, what B delivered is a prefix of what A accepted, at most one behind, and equal when A may send. |
| Pipeline.PipelineCorrectsExactly | Error Correction/Offline/err_correc.cpp:210-388 | For non-empty data and flips that touch each row at most once (and any in the CRC bits), the receiver recovers all data rows if and only if 8m+r < 2^r. |
| Pipeline.RowLengthsExact | Error Correction/Offline/err_correc.cpp:246-388 | Whatever was flipped, every recovered row has 8m bits if and only if 8m+r < 2^r. |
| Pipeline.PipelineReturnsText | Error Correction/Offline/err_correc.cpp:210-413 | Under that condition the decoder returns the padded input with negative character codes as zeros; that is the padded input itself if and only if the input is ASCII. |
| Pipeline.BurstIsRepaired | Error Correction/Offline/err_correc.cpp:277-413 | Every burst over at most as many serialised bits as there are rows is repaired, with the same text. |
| Pipeline.BurstTouchesRowsOnce | Error Correction/Offline/err_correc.cpp:277-284 | Column-wise serialisation spreads such a burst over different rows. |
| Pipeline.FirstUncoveredWidth | Error Correction/Offline/err_correc.cpp:246-256 | Up to m = 31 the check bits suffice for exactly m < 31. |
| Pipeline.SerializeAt | Error Correction/Offline/err_correc.cpp:277-284 | Bit i of row j is serialised at position i * rows + j. |
| Pipeline.DeserializeAt | Error Correction/Offline/err_correc.cpp:325-331 | The deserialised block has it back at row j, position i. |
| Pipeline.TextOfRows | Error Correction/Offline/err_correc.cpp:400-413 | Reading the rows of the data block gives the text they were made from, negative codes as zeros. |
| Pipeline.PaddedIs | Error Correction/Offline/err_correc.cpp:210-212 | The padded text is the data followed by fewer than m characters '~', a multiple of m in all. |
| Pipeline.ByteWeighs | Error Correction/Offline/err_correc.cpp:36-61 | The eight bits of a character, weighted 128 down to 1, sum to its code, or to 0 for a negative one. |
| Hamming.SyndromeFindsFlip | Error Correction/Offline/err_correc.cpp:355-377 | For every row with 8m+r < 2^r, the weighted parity sum is 0 for the sent row and p after flipping position p. |
| Hamming.DecodeCorrects | Error Correction/Offline/err_correc.cpp:355-388 | Such a row is recovered from any single flip, or none. |
| Hamming.DecodedLength | Error Correction/Offline/err_correc.cpp:355-388 | The decoder removes as many bits as the encoder inserted if and only if n+r < 2^r. |
| Hamming.EncodedRow | Error Correction/Offline/err_correc.cpp:246-272 | An encoded row has n plus the number of powers of two up to n bits, all check parities are even, and removing the check positions gives the data if none was added in between. |
| Hamming.StripSpread | Error Correction/Offline/err_correc.cpp:246-256 | Removing the power-of-two positions undoes their insertion. |
| Hamming.FillingSetsOneParity | Error Correction/Offline/err_correc.cpp:258-270 | Filling one check bit makes its own parity even and leaves every other parity as it was. |
| Hamming.ParityOfFlip | Error Correction/Offline/err_correc.cpp:63-78 | Flipping a position changes exactly the parities whose bit is set in the position. |
| Hamming.EncodedRowIsEven | Error Correction/Offline/err_correc.cpp:258-270 | In an encoded row the number of positions that hold a 1 and share a given bit is even, counted as the size of a set. |
| Hamming.CorrectedIsClean | Error Correction/Offline/err_correc.cpp:371-378 | Whatever was received: if the syndrome is a position of the row, exactly that bit is toggled and then every check holds; otherwise the row is left alone. |
| Binary.AndPow2 | Error Correction/Offline/err_correc.cpp:69-70 | The bit test against a power of two reads one binary digit. |
| Binary.MarkerIsPow2 | Error Correction/Offline/err_correc.cpp:249 | The loop's test k & (k - 1) == 0 holds only of powers of two. |
| Binary.Pow2IsMarker | Error Correction/Offline/err_correc.cpp:249 | It holds of every power of two. |
| Binary.MarkersStay | Error Correction/Offline/err_correc.cpp:246-256 | No power of two lies between n and n' if and only if n' < 2^(number up to n). |
| PipelineCode.PadData | Error Correction/Offline/err_correc.cpp:210-212 | The padding loop stops at whole rows: data first, then fewer than m characters '~'. |
| PipelineCode.BinaryConvert | Error Correction/Offline/err_correc.cpp:36-61 | The digits of a character, most significant first; eight zeros for a negative one. |
| PipelineCode.BuildRows | Error Correction/Offline/err_correc.cpp:229-242 | The nested loops cut the text into rows of m characters, of any codes. |
| PipelineCode.InsertMarkers | Error Correction/Offline/err_correc.cpp:246-256 | The insertion loop puts a blank at every power of two up to 8m. |
| PipelineCode.GetParity | Error Correction/Offline/err_correc.cpp:63-78 | The parity over the positions whose number has the given bit. |
| PipelineCode.FillMarkers | Error Correction/Offline/err_correc.cpp:258-270 | The blanks are filled left to right, each seeing those before it. |
| PipelineCode.CheckRow | Error Correction/Offline/err_correc.cpp:356-369 | The receiver's parities and positions, one for every power of two up to the row length. |
| PipelineCode.EraseMarkers | Error Correction/Offline/err_correc.cpp:383-386 | Erasing at shifting indexes removes exactly the power-of-two positions. |
| PipelineCode.CorrectRow | Error Correction/Offline/err_correc.cpp:355-388 | Syndrome, flip and erasure together are the specified decoder. |
| PipelineCode.SerializeBlock | Error Correction/Offline/err_correc.cpp:275-284 | The column-wise loops. |
| PipelineCode.DeserializeBits | Error Correction/Offline/err_correc.cpp:325-331 | The loop that deals the bits out to the rows in turn. |
| PipelineCode.ReadText | Error Correction/Offline/err_correc.cpp:399-413 | The bytes of the recovered rows. |
| PipelineCode.Encode | Error Correction/Offline/err_correc.cpp:209-300 | From text of any character codes to sent frame, as specified. |
| PipelineCode.Decode | Error Correction/Offline/err_correc.cpp:315-413 | From received frame to report and text, as specified. |
| PipelineCode.Run | Error Correction/Offline/err_correc.cpp:209-414 | End to end: with at most one flip a row the output is the data, negative codes as zeros, followed by fewer than m characters '~', a multiple of m in all; an unaltered frame is not reported; a non-zero burst shorter than a key that ends in 1 is. |
| Crc.BurstIsDetected | Error Correction/Offline/err_correc.cpp:285-317 | A non-zero burst shorter than a key whose last bit is 1, anywhere in a frame of any length, leaves a remainder. |
| Crc.KeyBurstIsMissed | Error Correction/Offline/err_correc.cpp:285-317 | The bound is tight: a burst equal to the key is never detected. |
| Crc.BurstsDetectedExactly | Error Correction/Offline/err_correc.cpp:213-317 | A key that begins with 1 detects every non-zero burst shorter than itself in the frame of any non-empty data if and only if it also ends with 1. |
| Crc.UndetectedExactly | Error Correction/Offline/err_correc.cpp:285-317 | Damage is undetected if and only if it is a multiple of the key. |
| Crc.SentFrameIsClean | Error Correction/Offline/err_correc.cpp:285-300 | Every unaltered sent frame has remainder zero. |
| Crc.RemainderOfReceived | Error Correction/Offline/err_correc.cpp:285-317 | The remainder of a received frame is that of the damage. |
| Crc.RemainderIsLinear | Error Correction/Offline/err_correc.cpp:103-150 | The remainder of a sum is the sum of the remainders. |
| Crc.DivisionIsUnique | Error Correction/Offline/err_correc.cpp:103-150 | Quotient and remainder are the only pair that makes up the frame. |
| Crc.DivisionComposes | Error Correction/Offline/err_correc.cpp:103-150 | Quotient times key plus remainder is the frame. |
| Crc.Division | Error Correction/Offline/err_correc.cpp:103-150 | The loop with its conditional erasure computes that remainder. |
| Crc.ErrorDetection | Error Correction/Offline/err_correc.cpp:152-163 | Counts the ones of the remainder: zero exactly for a zero remainder. |
| CrcScript.Mod2Div | Error Correction/Offline/crc.py:20-56 | The script's division computes the same remainder; a frame shorter than the key is reduced once by as many of the key's bits. |
| CrcScript.EncodeData | Error Correction/Offline/crc.py:61-73 | Data followed by its remainder, which divides evenly; empty data gives zeros, two fewer than the key has digits. |
| CrcScript.DivideBothWays | Error Correction/Offline/err_correc.cpp:103-150 | Both programs return the one remainder there is. |
| RoutingSafety.CostsAreWalks | Routing/Offline/Routing.cpp:133-236 | In every run of a network, under any loss, repetition, delay or reordering of updates, every cost below INF is the cost of an actual walk to that destination. |
| RoutingSafety.NeverUndercuts | Routing/Offline/Routing.cpp:133-236 | So no cost is below the shortest distance, or any other estimate consistent along the links, or else it is at least INF. |
| RoutingSafety.NoRouteOverDeadLink | Routing/Offline/Routing.cpp:147-213 | In every run, an entry with a cost below INF leads to a neighbour whose linktrack is not -1. |
| RoutingSafety.DownExactly | Routing/Offline/Routing.cpp:151-180 | An update leaves a link marked down exactly if it was down or is more than three updates behind, and the update is not from that neighbour; every other link is then at most three behind. |
| RoutingUpdates.HeaderIs | Routing/Offline/Routing.cpp:147-180 | What the header of an update makes of every entry: a sender that was down is reached over its link again, a neighbour more than three updates behind and everything routed over it is at INF, nothing else changes. |
| RoutingUpdates.LinkComesUp | Routing/Offline/Routing.cpp:133-236 | After a whole update from a neighbour whose link was down, that neighbour is the next hop to itself at exactly the cost of the link, and the link is up. |
| RoutingUpdates.TickAnnounces | Routing/Offline/Routing.cpp:98-131 | A clock tick puts the table, under the next number, on the wire to every neighbour with a link other than INF, down ones included, and nothing else. |
| RoutingUpdates.UpdatesAreNumbered | Routing/Offline/Routing.cpp:98-131 | In every run the updates of a router carry the numbers 1, 2, ... of its announcements. |
| RoutingUpdates.TracksAreTold | Routing/Offline/Routing.cpp:49-180 | In every run the track of a neighbour is the number of the last update from it (0 before the first), or -1 once another update was more than three ahead of that. |
| RoutingLures.DeadRouteExactly | Routing/Offline/Routing.cpp:183-213 | With the code's own test != INF, a line keeps routes off dead links if and only if it does not lure: offer a path at INF, by way of a sender whose own route is dead, for a destination that costs more than INF. |
| RoutingLures.UpdateKeepsRoutesExactly | Routing/Offline/Routing.cpp:133-236 | The tables an update leaves (links marked, failures detected, every line processed) have no route over a dead link in that sense if and only if no line lures in the tables as the header leaves them, except that a line after the first about a known destination cannot lure if the link to the sender costs less than INF. |
| RoutingLures.RunKeepsRoutesExactly | Routing/Offline/Routing.cpp:98-236 | Over every run of a network, under any loss, repetition, delay or reordering of updates: no router ever has a route over a dead link in that sense if and only if no arriving update lures its receiver. |
| RoutingLures.LinesKeepRoutes | Routing/Offline/Routing.cpp:183-213 | After all lines of an update a route leads over a dead link if and only if some line lured at its turn: what a line spoils no later line repairs. |
| RoutingLures.LuredAtTurn | Routing/Offline/Routing.cpp:183-213 | Whether some line lures at its turn, after the lines before it, can be told from the tables before any line is processed. |
| RoutingDeadRoute.DeadRouteIsReached | Routing/Offline/Routing.cpp:98-236 | A network of four hosts with non-negative link costs has a run, with lines in the order the code sends them, after which a router keeps a route of cost other than INF over a link it has marked down. |
| RoutingSafety.ReceiveKeeps | Routing/Offline/Routing.cpp:133-236 | A whole update keeps the invariant of a router's tables. |
| RoutingSafety.FailedKeeps | Routing/Offline/Routing.cpp:163-180 | Failure detection keeps it: all routes over the failed link become INF. |
| RoutingSafety.SendKeeps | Routing/Offline/Routing.cpp:98-131 | A clock tick puts only sound lines on the wire. |
| RoutingSafety.JoinWalks | Routing/Offline/Routing.cpp:188-202 | Two walks that meet make one whose cost is the sum. |
| Routing.TableIs | Routing/Offline/Routing.cpp:49-87 | The start-up loop leaves exactly the hosts the file names, each with the last direct link to it or undefined. |
| Routing.StartedIs | Routing/Offline/Routing.cpp:89-94 | The neighbours are exactly the hosts with a direct link of cost other than INF. |
| Routing.StartIsCoherent | Routing/Offline/Routing.cpp:49-95 | Routers started from one file know their links at both ends. |
| Routing.ReceiveKeepsReady | Routing/Offline/Routing.cpp:133-236 | Processing an update keeps every lookup the code makes without a check valid: tracked hosts are neighbours with an entry, and a sender that is somebody's next hop is a neighbour. |
| Routing.NextKeepsCoherent | Routing/Offline/Routing.cpp:98-236 | In a network every update on its way comes from a neighbour of the router it is for, so those lookups stay valid. |
| RoutingCode.RouterNode.constructor | Routing/Offline/Routing.cpp:49-95 | Reading the topology into the tables, as specified. |
| RoutingCode.RouterNode.HandleHeard | Routing/Offline/Routing.cpp:151-162 | The sender's link restored and its clock noted, as specified. |
| RoutingCode.RouterNode.Sever | Routing/Offline/Routing.cpp:175-178 | The inner loop cuts every route over the failed hop. |
| RoutingCode.RouterNode.HandleSilence | Routing/Offline/Routing.cpp:163-180 | The detection loop gives the same tables in whatever order it visits the links. |
| RoutingCode.RouterNode.HandleLine | Routing/Offline/Routing.cpp:184-215 | The three cases through the setters, as specified. |
| RoutingCode.RouterNode.HandleUpdate | Routing/Offline/Routing.cpp:133-236 | A whole update through the setters, as specified. |
| RoutingCode.RouterNode.HandleClock | Routing/Offline/Routing.cpp:98-131 | The update announces every entry other than INF and goes to every neighbour. |
| TangleMemory.RunTangle | NS2/Sample_Codes/NS2/ns-allinone-2.35/cweb/ctangle.c:608-680 | For every program, storing its sections and running the output routine writes exactly the recursive expansion of the unnamed program, which spells the tokens visited and whose section marks nest if every text begins with its section number; it overflows if and only if the program has too many texts or bytes, or the unnamed program is nested deeper than the stack. |
| TangleOutput.OutputRoutine.Write | NS2/Sample_Codes/NS2/ns-allinone-2.35/cweb/ctangle.c:616-669 | For any tables, cyclic or not, running get_output until the stack is empty terminates and writes the recursive expansion of the name, or overflows exactly when the name is nested deeper than the stack; then a prefix is written. |
| TangleOutput.OutputRoutine.GetOutput | NS2/Sample_Codes/NS2/ns-allinone-2.35/cweb/ctangle.c:546-590 | One call makes progress and keeps what is written plus what is to come. |
| TangleOutput.OutputRoutine.Fetch | NS2/Sample_Codes/NS2/ns-allinone-2.35/cweb/ctangle.c:558-588 | The byte-by-byte cases take the stored token from memory. |
| TangleOutput.OutputRoutine.PushLevel | NS2/Sample_Codes/NS2/ns-allinone-2.35/cweb/ctangle.c:513-526 | The current state is saved and the name's first text entered; overflow exactly at fifty levels. |
| TangleOutput.OutputRoutine.PopLevel | NS2/Sample_Codes/NS2/ns-allinone-2.35/cweb/ctangle.c:530-542 | On to the next text of the chain, or back to the saved state. |
| TangleOutput.AtToken | NS2/Sample_Codes/NS2/ns-allinone-2.35/cweb/ctangle.c:558-588 | Where the bytes of a text begin with a token, reading gives that token and moves to the bytes of the next. |
| TangleMachine.ExpansionIsLawful | NS2/Sample_Codes/NS2/ns-allinone-2.35/cweb/ctangle.c:546-590 | What recursive expansion says of a level fits what one turn does with it: a token, a use, the next text of the chain, or the end. |
| TangleMachine.TurnKeeps | NS2/Sample_Codes/NS2/ns-allinone-2.35/cweb/ctangle.c:546-590 | Each turn of the stack writes the first part of what is to come, leaves one turn less to do, and cannot change whether the stack will overflow. |
| TangleOutput.OutputRoutine.Pass | NS2/Sample_Codes/NS2/ns-allinone-2.35/cweb/ctangle.c:549-589 | One pass over the bytes is one turn of the stack of levels, and writes what that turn writes. |
| TangleMachine.TurnMade | NS2/Sample_Codes/NS2/ns-allinone-2.35/cweb/ctangle.c:546-590 | So at every point of a run, output so far and expansion to come make up the expansion, and overflow happens only where it must. |
| TangleMachine.FirstPending | NS2/Sample_Codes/NS2/ns-allinone-2.35/cweb/ctangle.c:616-617 | A run starts with the name's whole expansion to write, and will overflow exactly if the name is nested deeper than the stack. |
| TangleMachine.BodyIsChained | NS2/Sample_Codes/NS2/ns-allinone-2.35/cweb/ctangle.c:530-542 | Following the links from a name's first text visits all its texts in order. |
| TangleMarks.MarksNest | NS2/Sample_Codes/NS2/ns-allinone-2.35/cweb/ctangle.c:546-590 | If every text begins with its section number, as sections are stored (line 1439), the section marks written nest like brackets: every opening mark n is closed by -n, innermost first, and all marks sum to 0. |
| TangleMarks.ExpansionSpells | NS2/Sample_Codes/NS2/ns-allinone-2.35/cweb/ctangle.c:546-590 | For every program the other requests and the opening marks spell exactly the tokens visited, in order: identifiers, characters, verbatim bytes, line numbers, and one report for each use of an undefined name. |
| TangleMarks.UsesStandAlone | NS2/Sample_Codes/NS2/ns-allinone-2.35/cweb/ctangle.c:513-526 | What a used name stands for does not depend on the section that uses it. |
| Tangle.LevelsAreImmaterial | NS2/Sample_Codes/NS2/ns-allinone-2.35/cweb/ctangle.c:546-590 | A text that nests in some number of levels has the same expansion with every larger number. |
| Tangle.CycleNeverNests | NS2/Sample_Codes/NS2/ns-allinone-2.35/cweb/ctangle.c:546-590 | A name whose text leads back to it through any chain of uses nests in no number of levels. |
| Tangle.AcyclicNests | NS2/Sample_Codes/NS2/ns-allinone-2.35/cweb/ctangle.c:546-590 | If uses go down in rank, a text nests within the ranks of the names it uses. |
| Tangle.ReadPacked | NS2/Sample_Codes/NS2/ns-allinone-2.35/cweb/ctangle.c:558-588 | A packed identifier, section, line or character token decodes to what was stored, whatever follows. |
| Tangle.ReadAllPacked | NS2/Sample_Codes/NS2/ns-allinone-2.35/cweb/ctangle.c:558-588 | A whole packed text decodes to its tokens. |
| TangleMemory.ChainedRepresents | NS2/Sample_Codes/NS2/ns-allinone-2.35/cweb/ctangle.c:1449-1460 | One more definition keeps the tables those of the program. |
| TangleMemory.LastEndsChain | NS2/Sample_Codes/NS2/ns-allinone-2.35/cweb/ctangle.c:1449-1460 | Of the texts of a name exactly the last carries the end flag. |
| TangleMemory.TokenMemory.StoreTwoBytes | NS2/Sample_Codes/NS2/ns-allinone-2.35/cweb/ctangle.c:501-508 | Two bytes, the more significant first, unless memory is full. |
| TangleMemory.TokenMemory.StoreToken | NS2/Sample_Codes/NS2/ns-allinone-2.35/cweb/ctangle.c:1194-1262 | Each kind of token as the scanner packs it. |
| TangleMemory.TokenMemory.ChainTo | NS2/Sample_Codes/NS2/ns-allinone-2.35/cweb/ctangle.c:1449-1460 | The text goes to the end of its name's chain, found by following links. |
| TangleMemory.TokenMemory.DefineSection | NS2/Sample_Codes/NS2/ns-allinone-2.35/cweb/ctangle.c:1439-1460 | Storing and chaining a section in the arrays represents the program with that section added, or reports overflow exactly when it does not fit. |

## Left out

- Printing, tracing, logging, scanning of input, sockets and datagram buffers, and files: no part of the state
  modelled.
- Random generators: every draw is a parameter of the event that uses it, so the theorems hold for all draws.
- Machine integers, floating-point rounding and failing allocations: integers are unbounded and time is real. A sum of
  the checksum's size does not overflow; sequence numbers and clocks would after very long runs.
- `rdt_sol.c`: the null tests after a message was just appended cannot succeed and are not modelled; the counter of
  packets received at B is not kept.
- `rdt_sol.c`: its copy of the emulator is modelled as a medium that may deliver in any order and a timer that may fire
  at any time; the exact event list is modelled once, for `rdt_abp.c`.
- SelectiveRepeatCode.MessageList.Pop: freeing of nodes is not modelled.
- `rdt_abp.c`: the payload of an acknowledgement is cleared only up to its first zero byte before the rest is sent; it
  is modelled as arbitrary bytes of which the first is zero.
- `rdt_abp.c`: `BIDIRECTIONAL` is 0, so every generated message is for A; `B_output` and `B_timerinterrupt` do nothing.
- `err_correc.cpp`: the fixed number of 1000 rows and the display of errors; a frame shorter than the key and a key
  that does not begin with 1 are undefined behaviour there and are excluded by `PipelineCode` and `Crc.Division`.
- PipelineCode.Decode: requires the recovered rows to be complete, because the code reads past their end otherwise;
  `Pipeline.RowLengthsExact` says exactly when they are.
- `Routing.cpp`: the `cost`, `send`, `show` and `frwd` commands. Cost commands, which change link weights, are not
  covered; convergence is not claimed, since Case 1 raises costs.
- `Routing.cpp`: updates are values, not text, and are not cut at 1024 bytes; the order in which maps are visited is
  left open, which covers the sorted order. Link costs in the topology are taken to be non-negative.
- Routing.Receive: an update from a host that is a next hop but no neighbour makes the code follow an invalid iterator;
  it is excluded, and shown not to occur in a network started from one topology file.
- `ctangle.c`: the scanner, macro definitions and the `@h` command that writes them, and what `out_char` makes of each
  request (spacing and transliteration). The output is the sequence of requests; of `out_state` only whether it is
  verbatim is kept.
- `ctangle.c`: several output files; `TangleOutput.OutputRoutine.Write` serves any name and starting section, but only
  the unnamed program is run from start to end.
- TangleMemory.TokenMemory.DefineSection: the table of text starts has one entry more than in the source, for the end
  of the last text.
- The Go-Back-N programs, the ns-2 and nam sources, the socket, HTTP and mail exercises, and repeated copies of the
  files above.
