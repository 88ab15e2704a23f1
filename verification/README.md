# Verified models of the Klipper firmware core and its BMCU shim

The firmware is a set of state machines driven by interrupts: a timer list with a wrapped 32-bit clock, a
framed serial link to the host, stepper motors that are stepped one edge per timer event, triggers that
stop them, software PWM, a bit-banged UART, and a fixed-point filter. Each module here models one of
them and proves what it promises over every input, every interleaving and every run.

| file | models | main results |
|---|---|---|
| Clock.dfy | wrapped clocks (`src/generic/timer_irq.c`) | when the wrapped order is the real one |
| Agenda.dfy, Scheduler.dfy | the timer list (`src/sched.c`) | every operation keeps the list; the finger refines insertion from the head |
| TaskWake.dfy | sleeping and waking (`src/sched.c`) | no lost wakeup, bounded service, and when a shutdown breaks it |
| Crc.dfy | `src/generic/crc16_ccitt.c` | equality with the bit-serial CRC, burst detection |
| Vlq.dfy, Messages.dfy, Framing.dfy | `src/command.c` | round trips from integers to blocks of commands; what is accepted is a frame; chunking and polling do not matter; resynchronisation |
| GoBackN.dfy | the protocol with the host | exactly-once, in-order dispatch amid loss and noise with 15 outstanding blocks, and not with 16; the link recovers |
| SerialIrq.dfy | `src/generic/serial_irq.c` | both buffers under any interrupt interleaving |
| MovePool.dfy | `src/basecmd.c` | the pool is conserved; why shutdown handlers clear and do not free |
| Stepper.dfy, StepTiming.dfy | `src/stepper.c` | exact position, every step due at its nominal clock over whole runs, edges a pulse apart, the final position is conserved |
| Trigger.dfy, Endstop.dfy, Bmcu.dfy | `src/trsync.c`, `src/endstop.c`, `src/esp32/bmcu_fake.c` | from a UART line to stopped motors, over whole homing runs and epochs of a trigger |
| DigitalOut.dfy | `src/gpiocmds.c` | the limit on a non-default output over runs, exactly when it is missed, pulse times |
| TmcUart.dfy | `src/tmcuart.c` | what is driven is what is sampled |
| SosFilter.dfy | `src/sos_filter.c` | error bounds and exact overflow reports |

Conventions. Objects that the source updates in place are classes; their methods are proved against
functions on the abstract state (an ordered agenda, a ledger of nodes, a fold over bytes), and lemmas about
these functions carry the properties. Where the source stores a 32-bit clock, a ghost field holds the real
time without truncation, and the window assumption "live times are less than 2^31 apart" is a precondition
where a wrapped comparison needs it. An interrupt is a step that may happen between any two accesses to shared
data. `shutdown` ends a method with a result that says so; the shutdown sequence is a method of its own.

What the models found where code and expectation differ:

- A buffer argument that is cut, or that just fills the room left, makes a frame longer than its `max_size`,
  because the length byte is not counted (`Messages.PackFits`, `Messages.PackOverrunExample`).
- Two adjacent bytes that are changed by 0x91 and 0x85 where the payload meets the CRC go unnoticed; every other
  change of one or two adjacent bytes behind the length is caught (`Framing.BurstIsRefused`,
  `Framing.StraddleGoesUnnoticed`).
- A window of 16 blocks breaks exactly-once dispatch; 15 is the limit (`GoBackN.SixteenIsTooMany`).
- A signal added to a trigger that is already spent never fires; the next start drops it
  (`Triggers.RunEpoch`, `Triggers.LateSignalNeverFires`).
- Software PWM pulses past its `max_duration` with cycles beyond 2^31 ticks, and with shorter ones when the
  next update in the queue is for a clock long past (`DigitalOuts.RunsPastIff`, `DigitalOuts.LateUpdateExample`).
- An output configured away from its default stays there, whatever its `max_duration`, until a first update
  (`DigitalOuts.ConfiguredLevelWaits`).
- A DONE line that is in the FIFO before a request starts, on whichever line, ends that request
  (`Bmcu.EarlyDoneEndsRequest`).
- A timer callback that deletes its own timer loses it with an early reschedule, and may break the list when it
  goes on adding or deleting (`Scheduler.Sched.DeletingReschedule`, `Scheduler.Sched.DeletingDone`); during a
  shutdown an add before the running timer is lost (`Scheduler.Sched.EarlierAddIsLost`).
- A shutdown raised in the middle of a pass can leave a wake flag set while the processor sleeps
  (`TaskWake.JumpIsSafeIff`, `TaskWake.JumpLosesAWakeup`).
- The UART line buffer restarts at every sixteenth character, and a zero character ends a line's text early
  (`Bmcu.LineRecognised`).
- A message whose first bit is 1 is sent with that bit driven low (`TmcUarts.WaveIsMessage`); the measured bit
  time is rounded toward zero after the offset, not to the closest tick, for most negative differences
  (`TmcUarts.QuarterIsClosest`).
- With 32 fraction bits the rounding constant is negative (`SosFilters.ShiftBy32`).
- A filter run that fails leaves the sections before the failing one updated (`SosFilters.SosFilter.Apply`).

## Model

| member | source | states |
|---|---|---|
| Clock.BeforeIsEarlier | src/generic/timer_irq.c:26-30 | the wrapped comparison of two 32-bit clocks agrees with the order of the real times whenever those are less than 2^31 apart |
| Clock.ExactlyOneSide | src/sched.c:50-54 | every 32-bit time is before exactly one of a clock value and the value 2^31 later, which is why a walk that meets the periodic timer and the sentinel must stop |
| Clock.BeforeIsCyclic | src/generic/timer_irq.c:26-30 | the comparison is not a linear order: three times before one another in a cycle |
| Agenda.WalkStops | src/sched.c:66-79 | a walk over waketimes that ends in the sentinel's meets a later one before it runs off the list, for every 32-bit time whatever, if the periodic timer is ahead of it |
| Agenda.WalkFindsSlot | src/sched.c:68-79 | a walk that starts at any entry not after the new time finds the same place as a walk from the head: the insertion finger is a shortcut and nothing else (with `src/sched.c:168-176`) |
| Agenda.InsertKeepsOrder | src/sched.c:66-82 | an insertion keeps the list ordered by real time and within the window of the clock |
| Agenda.InsertAddsOne | src/sched.c:66-82 | the pending entries after an insertion are the old ones and the new one |
| Agenda.RemoveKeepsOrder | src/sched.c:120-143 | a removal keeps the order |
| Agenda.RemoveUndoesInsert | src/sched.c:84-143 | removing what was just inserted gives back the list |
| Scheduler.Sched.InsertTimer | src/sched.c:66-82 | the linked list afterwards is the ordered insertion; the walk stays on the list and ends at the sentinel at the latest |
| Scheduler.Sched.AddTimer | src/sched.c:84-107 | the pending timers gain exactly the added one, in its place by real time; the too-close shutdown happens exactly for a time before the head and before the clock outside a shutdown, and then nothing has changed; all list invariants hold |
| Scheduler.Sched.AddIsInsert | src/sched.c:91-105 | apart from the place-holding deleted timer both branches of an add amount to the ordered insertion |
| Scheduler.Sched.DelTimer | src/sched.c:120-143 | the pending timers lose exactly the deleted one (or nothing, if it was not pending), a deleted head leaves a place holder with its time, the finger leaves the deleted timer, and all list invariants hold |
| Scheduler.Sched.DelIsRemove | src/sched.c:124-139 | apart from the place holder both branches of a delete amount to removal from the ordered list |
| Scheduler.Sched.Reset | src/sched.c:181-190 | only the place holder, the periodic timer and the sentinel remain, in that order, with all invariants |
| Scheduler.Sched.PeriodicEvent | src/sched.c:31-43 | the periodic timer moves on by 100 ms and the sentinel stays half a turn of the clock beyond it |
| Scheduler.Sched.RunRequests | src/sched.c:84-143 | whatever sequence of adds (not before the running timer) and deletes (not of it) a callback makes, the list changes by exactly these |
| Scheduler.Sched.FinishDone | src/sched.c:161-167 | a finished timer leaves the list; if it was the finger, the finger moves to its successor |
| Scheduler.Sched.FinishReschedule | src/sched.c:168-176 | a rescheduled timer that is no longer first moves to its ordered place, found from the finger, also when the finger is that very timer |
| Scheduler.Sched.RequeueIsInsert | src/sched.c:168-176 | leaving the front and being inserted again is the ordered insertion into the rest |
| Scheduler.Sched.Dispatch | src/sched.c:145-179 | one dispatch, with a callback that adds, deletes other timers and finishes or reschedules: the list afterwards, every list invariant, and the new head's waketime as result |
| Scheduler.Sched.DeletingDone | src/sched.c:120-143 | a callback that deletes its own timer, goes on adding and deleting and finishes: the list goes on with what followed the timer when it was deleted, and is in order if and only if that still comes first (with `src/sched.c:145-167`) |
| Scheduler.Sched.DeletingReschedule | src/sched.c:120-143 | a callback that deletes its own timer and reschedules it: the timer is put back in order exactly if the new time is not before what follows it, and is lost otherwise (with `src/sched.c:168-176`) |
| Scheduler.Sched.EarlierAddIsLost | src/sched.c:84-107 | while the machine is shut down a callback may add a timer before the running one, and if it then finishes the added timer is lost (with `src/sched.c:161-167`) |
| Scheduler.AddedBehindDeleted | src/sched.c:66-82 | an add right behind a callback's deleted timer changes what follows it, so the list is broken when the callback finishes (with `src/sched.c:120-128`) |
| Scheduler.EarlierAddIsTooClose | src/sched.c:91-94 | an add before the running timer meets the too-close check in both comparisons |
| TaskWake.RunKeepsInv | src/sched.c:201-268 | on every interleaving of the loop with interrupts, a set wake flag is requested or still ahead in the pass under way |
| TaskWake.NeverSleepsOnAFlag | src/sched.c:246-254 | whenever the loop commits to sleeping, no wake flag is set and no woken function is owed its turn |
| TaskWake.ComesNearer | src/sched.c:227-268 | a woken function comes nearer with every step of the loop and no interrupt puts it off |
| TaskWake.EveryWakeIsServed | src/sched.c:219-268 | each wake, at any moment, is followed by a run of the function it names within two passes |
| TaskWake.EveryRequestIsServed | src/sched.c:201-204 | after sched_wake_tasks, or the wakeup of a task, at any moment of any run, the loop comes within two passes to the start of a pass and then by every task, whatever interrupts do; so a task without a flag, such as console_task, has its turn too (with `src/sched.c:219-268`) |
| TaskWake.NeverSleepsOnARequest | src/sched.c:246-254 | while a pass is requested and none has started, no run goes to sleep |
| TaskWake.BusyIsExact | src/sched.c:208-217 | the busy query says yes exactly when the processor was never idle from the previous query on |
| TaskWake.JumpIsSafeIff | src/sched.c:331-360 | after a shutdown at any moment, also while the processor sleeps, no run ever sleeps on a set wake flag if and only if a pass was already requested or no flag was set |
| TaskWake.JumpLosesAWakeup | src/sched.c:331-360 | a concrete run in which the processor sleeps with a flag set after a shutdown in mid-pass |
| Crc.Compute | src/generic/crc16_ccitt.c:10-22 | the loop over the buffer computes the fold of the shift-and-xor step |
| Crc.StepIsShifts | src/generic/crc16_ccitt.c:14-19 | one byte of the shift-and-xor form is eight rounds of the bit-serial reflected CRC with polynomial 0x8408 |
| Crc.CrcIsSerial | src/generic/crc16_ccitt.c:10-22 | at every length and from every register the CRC is the bit-serial one (appendix C.2 of RFC 1662) |
| Crc.Crc16IsSerial | src/generic/crc16_ccitt.c:10-22 | the CRC of every message is the bit-serial one that starts from 0xffff |
| Crc.StepInjective | src/generic/crc16_ccitt.c:14-19 | for a given byte the step is a one-to-one map of the register |
| Crc.BurstDetected | src/generic/crc16_ccitt.c:10-22 | changing any one byte or any two adjacent bytes, at any place in a message of any length, changes the CRC (with `src/command.c:285-289`) |
| Crc.LastByte | src/generic/crc16_ccitt.c:14-19 | the only change of the last byte that leaves the low half of the CRC as it was is by 0x91, and it changes the high half by 0x85 |
| Vlq.EncodeInt | src/command.c:39-54 | the branches and writes of the encoder put the encoding at the pointer and touch nothing else |
| Vlq.FitsIsSigned | src/command.c:43-47 | the bounds that choose the number of bytes are the source's signed ones |
| Vlq.ParseInt | src/command.c:56-70 | the parsing loop computes the decoding, or finds the bytes to be cut short |
| Vlq.RoundTrip | src/command.c:39-70 | all 2^32 values decode to themselves, with exactly their own bytes consumed, whatever follows |
| Vlq.EncodeIsGroups | src/command.c:39-54 | the bytes written are the value's groups of seven bits, the lowest last, each but that one marked |
| Vlq.Shortest | src/command.c:44-47 | no byte sequence shorter than the encoder's decodes to the value |
| Messages.IdRoundTrip | src/command.c:72-92 | message ids below 2^14 decode to themselves |
| Messages.IdIsGroups | src/command.c:72-92 | an id is written as one or two groups of seven bits, the high one first and marked |
| Messages.PackPlain | src/command.c:132-191 | arguments that fit, counting the length byte of every buffer, are written whole |
| Messages.CutSize | src/command.c:173-183 | an argument that fits is written whole, one that does not takes more than the room left; what is written of a buffer is its beginning, with its own length in front |
| Messages.PackFailsIff | src/command.c:141-150 | the encoder gives up exactly if what it wrote for the parameters before one is too long already |
| Messages.PackFits | src/command.c:141-191 | a message keeps to its maximum exactly when its arguments, with every buffer's length byte, fit |
| Messages.PackOverrunExample | src/command.c:173-178 | a buffer of just the remaining bytes makes a 65-byte frame |
| Messages.Encodef | src/command.c:132-194 | the payload, the length and the error exit are those of the packing specification, and nothing before the message changes |
| Messages.TableIsSizedRight | src/compile_time_request.c:341-508 | every purely numeric encoder of the build has the max_size that its id and parameter types call for |
| Messages.MaxSizeIsTight | src/compile_time_request.c:341-508 | the size counted for each numeric type is needed by some value of it |
| Messages.NumericMessageFits | src/command.c:132-191 | a numeric message with arguments in the range of their types never exceeds its max_size (with `src/compile_time_request.c:341-508`) |
| Messages.WrittenIsPayload | src/command.c:141-191 | the space that packing touches before it succeeds is that of the payload it leaves |
| Messages.AddFrame | src/command.c:196-206 | header, payload in place, CRC and sync byte form the frame, and nothing outside it changes |
| Messages.ParseF | src/command.c:94-130 | the parameter loop computes the parse of the arguments, its error exit included |
| Messages.ArgsRoundTrip | src/command.c:94-191 | every list of numeric and buffer arguments parses back to itself |
| Messages.OneParameter | src/command.c:94-130 | one parameter: a number is read to its end, a buffer only if it ends within the payload, and each error exit is taken exactly then |
| Messages.ParametersInTurn | src/command.c:94-130 | a list of parameters parses as its parts do, one behind the other |
| Messages.Dispatch | src/command.c:327-346 | the dispatch loop calls exactly the commands of the recursive parse, or stops where that does |
| Messages.RefusedIff | src/command.c:248-255 | an id is refused at once exactly if it is zero or not below the size of the table (with `src/command.c:327-346`) |
| Messages.CommandsInTurn | src/command.c:327-346 | acceptable commands are called in order and the dispatcher goes on behind them |
| Messages.StopsAtUnknown | src/command.c:248-255 | at an id that is not in the table the dispatcher stops, having called the commands before it (with `src/command.c:327-346`) |
| Messages.DispatchRoundTrip | src/command.c:94-191 | for every list of known commands that fits, the dispatcher calls exactly these with these arguments (with `src/command.c:327-346`) |
| Framing.AlwaysProgress | src/command.c:266-325 | every result but "need more" pops at least one and at most all bytes, and 64 bytes or more never give "need more", so a full receive buffer never stalls |
| Framing.AcceptedIsFrame | src/command.c:266-298 | for every state and buffer: what is taken for a block, dispatched or refused, is a whole frame with its own CRC, its length in range, the destination bit and the sync byte |
| Framing.FrameFound | src/command.c:273-298 | every frame at the front of the buffer is taken for a block, and dispatched exactly if its sequence byte is the expected one |
| Framing.FoundOtherwise | src/command.c:266-325 | exactly when the parser waits, skips a leading sync byte or discards, and how much, with which nak |
| Framing.BurstIsRefused | src/command.c:285-289 | a frame with one byte or two adjacent bytes changed anywhere behind the length byte is not taken for a block, but for one difference: 0x91 in the last byte of the payload with 0x85 in the first byte of the CRC (with `src/generic/crc16_ccitt.c:10-22`) |
| Framing.StraddleGoesUnnoticed | src/command.c:285-289 | that difference does go unnoticed, in every frame with a payload (with `src/generic/crc16_ccitt.c:10-22`) |
| Framing.DrainConcat | src/command.c:266-325 | running to rest on two pieces of input one after the other gives the events and the state of running on both at once |
| Framing.ScheduleIsIrrelevant | src/command.c:266-325 | however bytes arrive and however often the parser is polled, the accepted blocks and naks are at every moment, after running to rest, those of one pass over the whole stream (with `src/generic/serial_irq.c:74-90`) |
| Framing.OneNakPerOutage | src/command.c:303-324 | between two valid blocks garbage causes at most one nak |
| Framing.StreamAccepted | src/command.c:273-298 | a stream of frames with consecutive sequence numbers is accepted block by block |
| Framing.Resynchronised | src/command.c:303-318 | after garbage and a sync byte the parser accepts the stream that follows |
| Framing.EndToEnd | src/command.c:132-325 | blocks of encoded commands, framed and sent, come out of the parser as the same payloads in order |
| Framing.BlockDispatches | src/command.c:266-346 | an accepted block of encoded commands dispatches to exactly these commands |
| Framing.Receiver.FindBlock | src/command.c:266-325 | result, pop count, nak and the static state are those of the parser specification |
| GoBackN.BlockIsNext | src/command.c:278-298 | a block with a good CRC that a poll accepts is the next one expected, whatever bytes came before it |
| GoBackN.PollAnswers | src/command.c:278-325 | a poll tells the host how many blocks have been dispatched, for every good block, expected or not, and for the first garbage since the last one |
| GoBackN.ActKeepsInv | src/command.c:266-325 | every send, loss, arrival of arbitrary bytes, poll and acknowledgement keeps the relation between host and firmware (with `src/generic/serial_irq.c:76-90`) |
| GoBackN.DispatchedIsPrefix | src/command.c:266-325 | on every run over a FIFO link that loses packets and mixes in any bytes, with at most 15 blocks outstanding, the dispatched blocks are a prefix of the host's, each once and in order, although only four bits are compared (with `src/generic/serial_irq.c:76-90`) |
| GoBackN.LinkRecovers | src/command.c:266-325 | from every state that a run over the lossy link can come to, with the buffer read out, there is a way on after which every block is dispatched and acknowledged (with `src/generic/serial_irq.c:76-90`) |
| GoBackN.SixteenIsTooMany | src/command.c:278-298 | with 16 outstanding blocks a concrete run dispatches a block twice |
| SerialIrq.RxSide.RxByte | src/generic/serial_irq.c:26-36 | the byte is appended, or dropped when the buffer is full |
| SerialIrq.RxSide.PopInput | src/generic/serial_irq.c:48-72 | with the receive interrupt between any two accesses, the buffer ends up with the old contents without the first len bytes and with all bytes accepted meanwhile, and the retry loop ends |
| SerialIrq.ConsoleTask | src/generic/serial_irq.c:74-90 | one poll acts on a prefix of the stream and removes what the parser says, while interrupts add |
| SerialIrq.PollAmidArrivals | src/generic/serial_irq.c:74-90 | a poll that saw only what had come in when it looked is a poll between two arrivals |
| SerialIrq.Serve | src/generic/serial_irq.c:26-90 | any number of polls with the receive interrupt between any two of their steps report a prefix of what one pass over all bytes that found room reports, and running to rest on the buffer completes it |
| SerialIrq.TxSide.GetTxByte | src/generic/serial_irq.c:38-46 | the next unsent byte goes out, or there is none |
| SerialIrq.TxSide.MakeRoom | src/generic/serial_irq.c:111-118 | the queue is moved to the front of the buffer without a byte lost, repeated or reordered under the transmit interrupt |
| SerialIrq.TxSide.Sendf | src/generic/serial_irq.c:93-126 | for all arguments: bytes sent and bytes queued are together always the accepted frames end to end; a message joins whole as the frame of what the encoder packed, or, only when there is no room for its max_size behind what was queued, not at all, or ends in the encoder's error; one that fits its max_size meets nothing else, and only one whose own length goes beyond the buffer is reported as writing past it (with `src/command.c:132-216`) |
| MovePool.EachNodeOnce | src/basecmd.c:60-178 | while the pool is in order each node is exactly once in the free list, in one queue or in hand |
| MovePool.GiveSound | src/basecmd.c:73-81 | freeing keeps the linked lists and the partition |
| MovePool.EnqueueSound | src/basecmd.c:110-122 | a push keeps the linked lists and the partition, and appends to its queue |
| MovePool.DequeueSound | src/basecmd.c:124-131 | a pop keeps them, takes the oldest node and leaves the rest |
| MovePool.Pool.constructor | src/basecmd.c:168-178 | after move_finalize every node is free and every queue empty |
| MovePool.Pool.MoveAlloc | src/basecmd.c:83-94 | the node handed out was free and is now in hand; overflow exactly when none is free |
| MovePool.Pool.MoveFree | src/basecmd.c:73-81 | a node in hand becomes the next one to be handed out |
| MovePool.Pool.Push | src/basecmd.c:110-122 | the queue grows by the node at its end and the result says whether it was empty |
| MovePool.Pool.Pop | src/basecmd.c:124-131 | first in, first out |
| MovePool.Pool.Reset | src/basecmd.c:152-167 | the free list runs through the whole pool in order |
| MovePool.Pool.Shutdown | src/basecmd.c:133-167 | after move_reset and the handlers that clear their queues, every node is free exactly once and every queue empty, whatever was queued or in hand (with `src/compile_time_request.c:27-52`, `src/stepper.c:382-391`, `src/gpiocmds.c:205`) |
| MovePool.FreeAfterResetIsACycle | src/basecmd.c:73-81 | had a handler freed a node instead of clearing, the free list would be a cycle through that node and the ones below it (with `src/basecmd.c:152-167`) |
| Steppers.NominalNext | src/stepper.c:191-193 | the recurrence of interval and add gives t0 + k*interval + add*k*(k-1)/2 for step k |
| Steppers.TooLateIff | src/stepper.c:104-110 | in real time a move is too late exactly if its first step is more than a millisecond before the earliest next edge |
| Steppers.ArgumentsArrive | src/stepper.c:257-268 | an add is read as a signed and a count as an unsigned number of 16 bits |
| Steppers.OddAndPlanOfAppend | src/stepper.c:269-278 | a queued direction change turns every later move and no earlier one |
| Steppers.Stepper.LoadNext | src/stepper.c:62-129 | the next move of the queue becomes the current one with its register, direction pin, first step time and, behind a move, its earliest allowed edge; the too-far-in-past shutdown happens exactly when that check says so |
| Steppers.Stepper.Event | src/stepper.c:178-206 | one event is one step pin edge; the net count changes by exactly the step it is, on the edge to the active level of the pin or on both where every edge steps; the end of a pulse is due step_pulse_ticks after the reading of the clock, and a step at the low 32 bits of its nominal clock unless that is before the earliest next edge, and only then at that edge, also for the first step of a following move and around a direction change; position register, pin levels, direction pin, queued flips and step clock stay consistent, and where the stepper will end up does not change |
| Steppers.Stepper.QueueStep | src/stepper.c:257-288 | an accepted move shifts the final position by its count in the direction set last, whatever turns are queued; moves for a stepper that waits for a reset are discarded and a zero count is refused, and then nothing changes; the times of edges and readings are kept |
| Steppers.Stepper.SetNextStepDir | src/stepper.c:292-301 | only the direction of moves queued later changes |
| Steppers.Stepper.ResetStepClock | src/stepper.c:304-316 | only an idle stepper takes a new clock, and may move again |
| Steppers.Stepper.Stop | src/stepper.c:348-369 | the stepper stands with an empty queue, no timer, both direction flags and the pin low, and refuses moves; its register is where its last step edge left it if and only if the net count is within 2^30 either way; also from the middle of an interrupted direction change |
| Steppers.PositionIsExact | src/stepper.c:319-345 | the reported position is the signed count of step edges if and only if that count is within 2^30 either way, in mid-move too |
| Steppers.Stepper.DueIsWaketime | src/stepper.c:106-121 | the time a paced stepper waits for is the one less than half a turn of the clock from its earliest next edge (with `src/stepper.c:184-205`) |
| Steppers.Stepper.RunTimer | src/stepper.c:178-206 | a timer run not before it is due puts the next step pin edge at least step_pulse_ticks after the last one |
| Steppers.KeepStepping | src/stepper.c:178-301 | over any run, whatever is queued meanwhile, consecutive step pin edges of a stepper at work are at least step_pulse_ticks apart |
| StepTiming.ClocksAt | src/stepper.c:191-193 | the k-th clock of a move is t0 + k*interval + add*k*(k-1)/2 |
| StepTiming.OneEdge | src/stepper.c:62-206 | one event of a stepper that keeps its clocks: a step is due at the first of the nominal clocks still ahead, of the current move or a queued one, and if the event comes in time the stepper keeps its clocks |
| StepTiming.KeepTime | src/stepper.c:62-301 | over any run, whatever is queued meanwhile, with steps two pulses and twice the lateness of the timer apart: the k-th step edge is due at the k-th nominal clock of all that was queued, until an event comes later than allowed |
| StepTiming.FirstStepIsDue | src/stepper.c:98-103 | an idle stepper that is given a move waits for an interval after its clock (with `src/stepper.c:257-288`) |
| Triggers.TrSync.DoTrigger | src/trsync.c:26-48 | while armed, the reason takes effect, each listed signal fires exactly once and its stepper is at rest, and no other signal or stepper is touched; a spent trigger changes nothing at all |
| Triggers.TrSync.FireAll | src/trsync.c:36-44 | the dispatch loop fires every listed signal once and stops its stepper, and touches no other signal or stepper |
| Triggers.TrSync.AddSignal | src/trsync.c:86-98 | a signal joins the front of the list unless it is active already |
| Triggers.TrSync.Clear | src/trsync.c:100-115 | all registrations are dropped unfired, timers and flags are off |
| Triggers.TrSync.Start | src/trsync.c:117-130 | a new epoch in which no reason has taken effect yet |
| Triggers.TrSync.SetTimeout | src/trsync.c:135-147 | a timeout is set only while the trigger is armed |
| Triggers.TrSync.ExpireEvent | src/trsync.c:50-57 | the timeout's reason takes effect only if no other one did; otherwise no signal and no stepper changes |
| Triggers.TrSync.ReportEvent | src/trsync.c:59-68 | a report is due and the timer moves on by report_ticks |
| Triggers.TrSync.TriggerCommand | src/trsync.c:157-170 | the reason reported is the one that took effect, also when the host's came late, and then no signal and no stepper changes |
| Triggers.RunWithoutReset | src/stepper.c:276-286 | whatever is queued and whenever timers run, a stopped stepper has no step pin edge until its clock is reset (with `src/stepper.c:306-316`, `src/stepper.c:348-369`) |
| Triggers.RunEpoch | src/trsync.c:26-147 | over any sequence of timeouts, triggers by host or endstop, reports, registrations and stepper activity: the first trigger, and no other, takes effect; a signal fires once if it was registered at first or by a registration before that trigger, and not at all otherwise; while none came, the list holds exactly those and nothing has fired (with `src/stepper.c:178-288`, `src/stepper.c:348-369`) |
| Triggers.RunSpent | src/trsync.c:26-48 | behind a trigger no reason takes effect, no signal fires, whoever registers, and no stepper at rest has a step pin edge (with `src/trsync.c:86-98`, `src/stepper.c:178-288`) |
| Triggers.RunFromStart | src/trsync.c:26-170 | a whole epoch from its start: exactly the signals registered between the start and the first trigger fire, once each |
| Triggers.LateSignalNeverFires | src/trsync.c:26-48 | whatever the trigger: a signal that registers behind it stays active on the list and is passed by at the next trigger (with `src/trsync.c:86-98`) |
| Bmcu.FeedConcat | src/esp32/bmcu_fake.c:171-192 | parsing is a fold over bytes, independent of the chunks in which the FIFO was read |
| Bmcu.LineRecognised | src/esp32/bmcu_fake.c:154-192 | a line counts if and only if its last characters, as many as its length leaves over from a multiple of 16 and up to the first zero, are DONE |
| Bmcu.LongLines | src/esp32/bmcu_fake.c:186-190 | sixteen characters in front of DONE do not matter, seventeen do |
| Bmcu.ReturnIsIgnored | src/esp32/bmcu_fake.c:171-192 | a carriage return anywhere makes no difference |
| Bmcu.CStringIs | src/esp32/bmcu_fake.c:154-161 | strcmp against a string without zeros compares the text up to its first zero |
| Bmcu.RequestNamesChannel | src/esp32/bmcu_fake.c:211-228 | a request's text names its channel and mode and no other |
| Bmcu.RequestIsText | src/esp32/bmcu_fake.c:208-228 | the low pin alone asks for channel 1, the high pin alone for 2, both for 3, neither for 0, after OUTPUT or INPUT |
| Bmcu.DoneBetweenRequests | src/esp32/bmcu_fake.c:209-254 | in every history that keeps the unit's invariant a recognised DONE lies between any two requests |
| Bmcu.RequestsAreAnswered | src/esp32/bmcu_fake.c:154-254 | all requests but one that still waits have a recognised DONE of their own |
| Bmcu.DonesAreLines | src/esp32/bmcu_fake.c:154-192 | from the start of a line the parser counts exactly those complete lines that are recognised one by one |
| Bmcu.EarlyDoneEndsRequest | src/esp32/bmcu_fake.c:208-275 | a request that starts over bytes still in the FIFO is over at the next look at the endstop pin if and only if a recognised line is among the bytes read by then, which are the ones in the FIFO at its start when nothing more came in |
| Bmcu.Unit.FinishRxLine | src/esp32/bmcu_fake.c:154-161 | a line end acts as the fold says and a recognised line ends the request |
| Bmcu.Unit.Poll | src/esp32/bmcu_fake.c:163-193 | the FIFO is read until it is found empty while more comes in, and what was read is parsed as one fold |
| Bmcu.Unit.StartAction | src/esp32/bmcu_fake.c:208-229 | the request written carries the channel and mode of that moment; a partial line is forgotten |
| Bmcu.Unit.Write | src/esp32/bmcu_fake.c:231-254 | a request starts exactly on a high trigger with none under way, and the text of the pins' levels goes out |
| Bmcu.Unit.Read | src/esp32/bmcu_fake.c:256-275 | the endstop pin is high exactly when no request awaits its DONE after all that came in; the parser is the fold over the bytes read, which are the next ones on the line, and the log gains exactly the lines this recognised |
| Bmcu.Unit.Toggle | src/esp32/bmcu_fake.c:277-281 | after a poll, toggling the trigger pin asks for an action unless one is under way, and toggling a channel pin inverts it |
| Endstops.RunIsTheLastStretch | src/endstop.c:43-64 | what is counted is the longest unbroken stretch at the end of the readings |
| Endstops.Endstop.Home | src/endstop.c:73-96 | homing starts with a full count and no reading, or is switched off by a zero count |
| Endstops.Endstop.Oversample | src/endstop.c:43-64 | one reading of the pin, added to those before; matches are counted down, a miss restores the full count and the rest interval; the unit only reads what came in |
| Endstops.Endstop.Event | src/endstop.c:26-64 | the timer adds one or two readings, each taken from the unit after it has read all that came in, and fires exactly when one plus sample_count readings in a row matched; firing stops every registered stepper once, and otherwise the trigger is not touched |
| Endstops.RunHoming | src/endstop.c:26-64 | over any run of timer events, polls and requests, and of whatever happens to the trigger and the steppers meanwhile: homing fires at the first moment at which one plus sample_count readings in a row matched, each of them, at the moment of the log it was taken, high exactly if no request awaited its DONE, so that homing for high never fires while the latest request awaits DONE; for the trigger it is one more trigger behind the other happenings: the first of all takes effect and fires exactly the signals registered before it (with `src/esp32/bmcu_fake.c:163-275`, `src/trsync.c:26-170`) |
| DigitalOuts.ReadingIsNear | src/generic/timer_irq.c:26-30 | the wrapped comparison with a clock is the order against the time it stands for |
| DigitalOuts.RunsPastIff | src/gpiocmds.c:41-51 | for every end a setting can be loaded with (the limit, or a queued update as it is compared with the limit): its pulses run past the limit if and only if the first toggle not before the end lies 2^31 ticks or more, and less than a turn, beyond it, and the end is not more than 2^31 ticks beyond the first edge (with `src/gpiocmds.c:95-111`) |
| DigitalOuts.LimitMissedExample | src/gpiocmds.c:41-51 | a limit of 0x20000000 ticks is missed with an on time of 0x10000000 and a cycle of 0xC0000000 |
| DigitalOuts.LateUpdateMissesLimit | src/gpiocmds.c:41-51 | a limit of 0x10000000 ticks is missed with a cycle of only 0x40000000 when the next update in the queue is for a clock long past (with `src/gpiocmds.c:95-111`) |
| DigitalOuts.LateUpdateExample | src/gpiocmds.c:55-173 | that output, configured, queued and loaded: its pulse is due to end after twice the limit |
| DigitalOuts.ShortCyclesKeepTheirLimit | src/gpiocmds.c:41-51 | no cycle of up to 2^31 ticks runs past its limit unless its end lies before its load |
| DigitalOuts.PlayPulses | src/gpiocmds.c:34-114 | a pulsing setting played from its load, with any queue behind it, is found toggling beyond its limit exactly if the train runs past it with the end it was loaded with, and otherwise waits to load at that end |
| DigitalOuts.NextEdge | src/gpiocmds.c:41-46 | the edges of a pulse train have the closed form given by on and off time |
| DigitalOuts.DigitalOut.ToggleEvent | src/gpiocmds.c:34-53 | for all times: the k-th edge comes at its closed-form time unless the comparison finds the end reached, and then the load handler is armed exactly for the end; the next event stays within the limit if and only if the next edge is not 2^31 ticks or more beyond the end |
| DigitalOuts.DigitalOut.LoadEvent | src/gpiocmds.c:55-114 | for all times: shutdown exactly for a missed update or one beyond the limit; otherwise level, pulse form, end and handler of the setting, with the end within the limit for every pulsing or non-default output, and the next event within it if and only if no first edge lies 2^31 ticks or more beyond that end |
| DigitalOuts.FailsIff | src/gpiocmds.c:57-92 | a load shuts down exactly if nothing was queued, or the update behind a pulsing or non-default setting is for a clock behind its limit |
| DigitalOuts.LimitedIff | src/gpiocmds.c:64-100 | with nothing queued behind it a setting is ended by the limit exactly if it pulses or is not the default, and otherwise holds for good |
| DigitalOuts.DigitalOut.SetPwmCycle | src/gpiocmds.c:130-140 | the cycle changes only with an empty queue and not for pulses under way |
| DigitalOuts.DigitalOut.QueueDigitalOut | src/gpiocmds.c:143-173 | updates queue up in order; the first one becomes the end, unless it is beyond the one that was set, and is waited for by a toggle before it or by the load handler at it |
| DigitalOuts.DigitalOut.UpdateDigitalOut | src/gpiocmds.c:176-194 | a non-default level gets a limit counted from the reading of the clock, a default level none |
| DigitalOuts.DigitalOut.ShutdownHandler | src/gpiocmds.c:196-207 | the output is at its default with nothing pending |
| DigitalOuts.RunOutput | src/gpiocmds.c:34-207 | over any run of commands and timer events, at any clocks: every timer event of a pulsing or non-default output with a limit comes within the limit of its load, and another one is pending within it, up to the first event whose next toggle lies 2^31 ticks or more beyond the end; a shutdown leaves the default |
| DigitalOuts.RunSensibly | src/gpiocmds.c:34-207 | over any run with cycles of up to 2^31 ticks, a limit below that and updates in clock order, every such event comes within the limit |
| DigitalOuts.ConfiguredLevelWaits | src/gpiocmds.c:115-128 | an output configured away from its default stays there until its first update, which is waited for at any clock whatever the limit (with `src/gpiocmds.c:143-173`) |
| TmcUarts.StoredBit | src/tmcuart.c:60-65 | storing one bit changes that bit and no other |
| TmcUarts.BitIsArithmetic | src/tmcuart.c:60-65 | bit i of a byte is the one of weight 2^i |
| TmcUarts.LineBitIsArithmetic | src/tmcuart.c:54-72 | bit k of a message is the one of weight 2^(k mod 8) of byte k/8 (with `src/tmcuart.c:126-139`) |
| TmcUarts.BitsMakeMessage | src/tmcuart.c:54-72 | bytes are determined by their bits, least significant first |
| TmcUarts.WaveIsMessage | src/tmcuart.c:114-142 | the levels driven are the message's bits if and only if its first bit is 0 |
| TmcUarts.SampledWave | src/tmcuart.c:54-72 | sampling each slot of the wire once rebuilds the bytes (with `src/tmcuart.c:114-142`) |
| TmcUarts.QuarterIsClosest | src/tmcuart.c:160-166 | the measured bit time is rounded to the closest tick exactly for differences not below -2 or congruent to 2 modulo 4; otherwise it is up to 5/4 ticks high (with `src/compiler.h:47-50`) |
| TmcUarts.TmcUart.SendEvent | src/tmcuart.c:114-142 | one toggle per run of equal bits; the wire has the message's level in every slot so far; the next event is due exactly when the next differing slot, or the end, begins |
| TmcUarts.TmcUart.NextChange | src/tmcuart.c:126-139 | the first slot with another level, or the end of the message |
| TmcUarts.TmcUart.SyncEvent | src/tmcuart.c:144-170 | the nibble's slots carry the same bits, and the fifth edge hands over to the plain sender at bit 5 with the measured bit time |
| TmcUarts.TmcUart.SendCommand | src/tmcuart.c:189-217 | a busy line drops the request, oversize data is refused, otherwise the message is set up with its handler and start time |
| TmcUarts.TmcUart.SendFinishEvent | src/tmcuart.c:97-112 | a write alone ends here; otherwise listening starts four bit times later |
| TmcUarts.TmcUart.ReadSyncEvent | src/tmcuart.c:74-95 | reading begins at the first low level after a high one, with a timeout after 65 looks |
| TmcUarts.TmcUart.ReadEvent | src/tmcuart.c:53-72 | bit k of the data is the k-th sample, taken k bit times after the first, and the answer ends with the last one |
| TmcUarts.TmcUart.ResetLine | src/tmcuart.c:32-41 | the line is high and free |
| SosFilters.ShiftedIsClose | src/sos_filter.c:36-50 | for up to 31 fraction bits the product is within half a unit of the exact quotient |
| SosFilters.ShiftBy32 | src/sos_filter.c:43-47 | with 32 fraction bits it is so if and only if the product lies exactly half way |
| SosFilters.OverflowIsExact | src/sos_filter.c:30-54 | overflow is reported exactly when the 32-bit result is not the 64-bit one, which itself never overflows |
| SosFilters.OffsetCheckIsExact | src/sos_filter.c:68-72 | the sign comparison finds exactly the sums that do not fit in 32 bits |
| SosFilters.SectionSucceedsIff | src/sos_filter.c:76-95 | a section fails exactly if one of its five rounded products does not fit in 32 bits, the feedback ones at its own output; its output and states are the exact sums in 32 bits |
| SosFilters.SectionFollows | src/sos_filter.c:79-94 | a section without overflow or wrap follows the transposed direct form II recurrence within half a unit on its output and one unit on each state |
| SosFilters.CascadeFollows | src/sos_filter.c:76-95 | so does each section of a successful run of the cascade |
| SosFilters.SosFilter.Scale | src/sos_filter.c:62-74 | automatic offset, exact sum and scaled value, or failure exactly when one of them overflows |
| SosFilters.SosFilter.Apply | src/sos_filter.c:56-99 | a call succeeds if and only if the offset sum, the scaled value and the five products of every section, each at the output of the one before, fit in 32 bits; then every section made its step; on failure the value is kept, and the failing section and the later ones have their old states |
| SosFilters.SosFilter.SetSection | src/sos_filter.c:129-143 | one section's coefficients change and the filter is off; an index beyond the filter is refused |
| SosFilters.SosFilter.SetState | src/sos_filter.c:148-161 | one section's states change and the filter is off; an index beyond the filter is refused |

## Left out

- Scheduler.Sched.AddTimer: assumes live times less than 2^31 apart, as the wrapped comparison does; outside that window the order of the list is not defined by the code either.
- Scheduler.Sched.Dispatch: callbacks are sequences of adds and deletes followed by a result; what else they do is in the other modules. Callbacks that delete their own timer are in DeletingDone and DeletingReschedule.
- Scheduler.Sched.DeletingReschedule: the delete is the callback's last request; no callback adds its own timer back.
- DigitalOuts.RunOutput: behind the first event that misses the end, what comes is only known to keep the invariant of the output.
- DigitalOuts.DigitalOut.QueueDigitalOut: a 32-bit clock stands for the real time nearest to what it is compared with.
- SerialIrq.TxSide.Sendf: what the code does when it writes past its buffer is not modelled. `Messages.PackFits` says exactly which messages overrun.
- Triggers.RunEpoch: each stepper's net count, and as many steps as its timer runs, stay within 2^30, the range in which a stop is exact (`Steppers.Stepper.Stop`), and no stepper is given a new step clock meanwhile.
- StepTiming.KeepTime: begins with a stepper that keeps its clocks; `StepTiming.FirstStepIsDue` says when one that was idle does.
- GoBackN.LinkRecovers: bytes that are still in the buffer and would pass the CRC without having been sent leave the model no way on, as the CRC is taken as ideal.
- Steppers.KeepStepping: the scheduler runs a timer at or after the time its waketime stands for.
- SosFilters.SosFilter.Apply: requires at most 32 fraction bits, because C gives longer shifts of the rounding constant no meaning; the setters allow up to 63.
- SosFilters.SectionFollows: assumes that the unchecked additions do not wrap, since the code does not report it when they do.
- Bmcu.Unit.Poll: a poll is one atomic step, although the code can reach it from a task and from a timer interrupt at once.
- GoBackN.DispatchedIsPrefix: the CRC is taken as ideal (bytes that pass it are a packet in transit, in order) and the host as any sender that reads acknowledgements modulo 16.
- Framing.EndToEnd: payloads are those an encoder writes; arbitrary bytes inside a frame with a right CRC are only covered up to the point where the parser would read past its block.
- Triggers.TrSync.TriggerCommand: the report message itself, and trsync_task, are not modelled.
- Small counters of type `uint8_t` and `uint16_t` are natural numbers where the code's own bounds keep them small (buffer positions, bit counts); the truncation of a step count, a step add and a sample count to their fields is modelled.
- Each stepper's, output's and trigger's timer is an `armed` flag with a waketime; that the scheduler runs it in order is Scheduler.dfy's result and is not composed with them.
- The move queues of steppers and outputs are sequences in their modules; that they share one pool of linked nodes is MovePool.dfy's subject. move_alloc's overflow shutdown ends a command before anything changes.
- timer_dispatch_many and timer_task: their loop ends only by the progress of real time and of the other tasks.
- PT_string and PT_progmem_buffer parameters: strings are host-side messages; the buffer case covers the truncation rule.
- The HF_IN_SHUTDOWN filter of the dispatcher, oid tables, configuration CRC and statistics: table lookups and counters.
- in_sendf: a response sent from an interrupt during another one is dropped whole before it reaches the buffer.
- setjmp and longjmp: a shutdown is an abrupt end of a method or, in TaskWake.dfy, a jump to the start of the loop.
- The AVR and edge-optimised stepper paths: disabled in this configuration.
- The LED of the BMCU shim, UART set-up and GPIO registers: device access without state of interest.
- ESP-IDF code, sensors, ADC, SPI, displays, hardware PWM, buttons and trigger_analog: device I/O and easier relatives of what is modelled.
- sos_filter_set_offset_scale and sos_filter_set_active: plain field assignments.
