# Verified model of the general-purpose controller firmware

The firmware stores small *micro sequences* in flash and runs them under a controller state
machine; it moves CAN messages through priority queues, and host tools talk to it over a byte
stream and flash it word by word. These Dafny modules model that logic and prove what it keeps
over whole runs. `dafny verify dfyconfig.toml` checks everything; the modules need nothing but
each other.

Code that updates objects in place is modelled by classes (`Executor`, `ControllerObject`,
`Ring`, `CommCan`, `CanMessengerObject`, `BluelinkPacketLog`, `CommInterruptsHandler`,
`ProgrammerSession`, `VarStore`). Each of their methods is proved to take the object's fields
from one value to the next value of a specification function, and the theorems about runs are
proved about those functions. Peripherals, interrupts, clocks and the channel between host and
device are oracles: a proof holds for every answer they can give.

| part | modules |
|---|---|
| interpreters of micro sequences | `BitOps`, `MicroOps`, `MicroVarStore`, `ExecutorSpec`, `MicroSequenceExecutor`, `OperationMeanings`, `ConditionMeanings`, `SequenceSafety`, `ExecutorEquivalence`, `StructuredPrograms`, `ExecutorProgress`, `LoopingSequences` |
| controller state machine | `ControllerSpec`, `GpcController`, `ControllerRuns`, `StateSequences`, `OneShotStates` |
| CAN queues and transmitter | `PriorityOrder`, `PriorityRing`, `CanTransmitter`, `MessengerSpec`, `MessengerRuns`, `MessengerOrder`, `ArrivalOrder`, `FrameUrgency`, `HandOvers`, `MessengerProgress`, `MutedTransmitter`, `CanMessenger` |
| stream framing and pending writes | `PacketFraming`, `PacketLog`, `PendingWriter` |
| flashing | `FlashErase`, `Bootloader`, `FlashSession`, `TransferConditions`, `Programmer` |
| bytes between commands, variables and telemetry | `Bytes`, `ByteRoutes` |
| host-side sequence recorder | `SequenceRecorder` |

## Main results

- **Two interpreters, one meaning.** The resumable interpreter, under any clock, any number of
  ticks and any BUSY answers, ends with the variables, driver calls, pauses and verdict of the
  blocking one (`TicksRefineImmediate`). On flattened IF programs both have the meaning of the
  nested program, which knows no positions or jumps (`FlatteningPreservesMeaning`,
  `TicksPreserveMeaning`).
- **A looping sequence is the blocking run repeated.** After any ticks in which k passes have ended,
  the world is that of k blocking runs followed by what is done of the next one
  (`LoopRepeatsBlockingRun`, `EndedPassStartsOver`); with D delays, D + 1 unstalled ticks end a pass
  (`LoopKeepsEndingPasses`).
- **Every operation does what its name says**, in the values of slots and driver answers: sums and
  products, truncating division, bytes sent, received and moved, and exactly when it is refused
  (`OperationMeanings`); an IF body runs iff the two numbers compare so (`ConditionMeanings`). No
  sequence, whatever its steps, drives a safety pin or hands a driver a value out of range
  (`TicksMakeLegalCalls`, `ImmediateFollows`).
- **The controller runs the right sequence.** In every reachable state the state executor is
  stopped or runs the sequence and loop flag of the current state, as long as no state sequence
  moves the controller (`StateAndSequenceAgree`); `StateTickKeepsBound` says exactly which ticks
  break the binding when one does, and `MovingSequenceIsRestarted` shows such a run. Which stored
  sequence that is, is spelled out state by state (`StatesRunTheirFields`,
  `FreshStateTakesUpItsField`), and the main executor runs the main sequence and nothing else
  (`MainRunsMainTick`). A one-shot state with D delays is left within D + 2 unstalled ticks
  (`OneShotAdvances`), and not before its delays are over, even across a wrap of the 32-bit clock
  (`OneShotTakesItsDelays`).
- **No CAN frame is lost** by the messenger with the `+ SIZE` form of its queue. With interrupts
  between the steps of the tick, and in the middle of handing a frame to the driver, accepted =
  sent + queued + discarded by an overflow, as multisets of frames (`RunsBalance`).
- **Frames keep their order up to one completion.** Frames of one priority leave the queue in the
  order in which they entered it (`FramesLeaveInOrder`). All runs with at most n completed
  transmissions while a tick holds a frame send frames in the order in which they left the queue if
  and only if n <= 1 (`SentInOrderIff`); when nothing is put back either, the frames of one priority
  are sent in the order in which callers enqueued them (`SentInArrivalOrder`). Kind by kind, more
  urgent frames stand in front of less urgent ones, and the head is what is sent next
  (`UrgentFramesFirst`, `SameUrgencyInArrivalOrder`, `MostUrgentIsSentNext`).
- **The transmit path cannot wedge**, as long as no transmission completes between the driver's two
  stores of its state and its flag. With frames queued and 100 ms since the last accepted one, two
  ticks offer a frame to the hardware, whatever happens in the first and whether or not transmit
  interrupts come, unless receive failures reach the error limit before the second offers its frame
  (`TwoTicksReachHardware`). From a rested transmitter and without transmit interrupts that
  condition is exact (`ReceiveFailuresStarve`). A completion between the two stores, with nothing left
  to send, mutes the transmitter; without further transmit interrupts it stays so in exactly the runs
  in which the queue does not overflow and receive failures do not reach the limit
  (`CompletionAmidRecordMutes`, `MutedUntilOverflowOrLimit`).
- **The queues are stable priority queues**, for any head position and wrap (`InsertWithPriority`,
  `InsertionIsStable`, `FirstInFirstOut`). As written, the shift target lacks the `+ SIZE` that the
  line above it has: the model has both forms, `InsertWithPriority` states exactly when the written
  one stays inside the array, and `WrappedInsertionLeavesArray` reaches a case where it does not.
- **Framing does not depend on chunking** (`ChunkingIsInvisible`), loses nothing (`ParseConserves`)
  and recovers every packet sent (`RoundTrip`).
- **Flashing is a correct stop-and-wait transfer** over a channel that loses, repeats, delays and
  reorders: the bootloader has seen a prefix of the words, once each and in order, and all of them
  after a success (`WordsArriveInOrder`). After a reported success the flash holds the zero-padded
  file if and only if every programming call that was made succeeded, and the number of words is
  even or the device handled the end command (`FlashHoldsTheFile`); the answer to the end command,
  which the host throws away, would tell it the latter (`ConfirmedFlashHoldsTheFile`). What the
  channel has to do for a word, the whole transfer or the end command to be acknowledged is stated
  exactly (`WordIsAcknowledgedIff`, `TransferIsReportedIff`, `EndIsConfirmedIff`).
- **The pending-buffer writer accounts for every byte**: taken, lost and waiting bytes are, in order,
  everything written, and bytes are lost by exactly the driver calls that are refused or that announce
  a truncated 16-bit length (`WriteAccountsForBytes`, `BytesAreLost`, `WritesKeepOrder`).

## What the code does differently from what one would expect

- A shift in the priority queue can store outside the array
  (interfaces/interfaces_g474/CanMessenger/can_messenger.cpp:294, 319): `WrittenTargetInBounds`,
  `WrappedInsertionLeavesArray`.
- A BUSY retry from the tick turns a default frame's priority 4 into 3: a retry promotes a frame iff
  its priority is greater than 3 (`RetryPromotes`).
- A state advances although its sequence failed: `FailedSequenceCompletes` is such a run, and
  `CompletionNeedsSequenceEnd` says exactly when a tick completes a state.
- A one-shot state whose sequence has more than 30 steps is never left: `OverlongOneShotStays`.
- A state sequence that moves the controller is started again in the new state:
  `MovingSequenceIsRestarted`.
- The bootloader answers each word once and drops repetitions without an answer, so the hundred
  tries of `writeFlashData` cannot make up for a lost answer: `WordNeedsItsOnlyEcho`.
- The bootloader also answers a word whose programming failed (`EveryWordIsAnswered`,
  `WordsAreWritten`), and the host ignores whether the end command was answered, although an odd
  last word is only programmed by it.
- An answer left over from an earlier session is trusted: a word is safe on every channel iff no such
  answer names its address (`SafeIffNotStale`).
- A write that the driver refuses loses the bytes offered to it, also those of earlier writes, and
  sometimes keeps the new ones although it returns the error: `BytesAreLost`.
- A frame of 9 to 64 bytes passes `enqueueTxMessage`'s length check and is copied past the end of its
  8-byte queue item: `EnqueueConserves` tells these lengths apart.
- While the tick holds a frame, two transmit interrupts send the one behind it first
  (`HeldFrameIsOvertaken`); one alone is harmless (`SentInOrderIff`).
- A frame that the hardware refuses in the interrupt goes behind the others of its priority:
  `RefusedFrameLosesItsTurn`. A frame sent between a failed one's re-insertion and the recovery is
  aborted by that recovery although it counts as sent: `CompletionBeforeRecoverySends`.
- A transmission that completes before the driver has recorded its start is not noticed: the driver
  then waits for a completion that has already come, until 100 ms have passed
  (`CompletionInsideIsMissed`). One that completes between the stores of state and flag leaves a
  state that says ready and a flag that says busy, which no plain recovery repairs:
  `CompletionAmidRecordMutes`, `MutedUntilOverflowOrLimit`.
- `eraseFlash` rounds the length, not the end address, up to pages: exact iff `Fits` (`EraseIsExact`).
- Receive failures count towards the same limit as transmit failures and can starve the transmit
  queue: `ReceiveFailuresStarve`.
- The recorder's check does not look into IF bodies (`NestedCountIsNotChecked`), and the printer
  leaves the bracket of a nested IF open (`BracketsMissNestedIfs`).

## Modelling decisions

- `MOVE_TO_ERROR_STATE` and `MOVE_TO_EMERGENCY_STATE` stop the executor while its loop is still
  going, after which the loop reads the sequence pointer that was just cleared. The model ends the
  tick there with the executor idle. Claims that would depend on it exclude these operations.
- 64-bit overflow in `VAR_MUL` and `VAR_ADD` is undefined in the source and wraps in the model.
- The messenger uses the queue with the `+ SIZE` form (`wraps`); both forms are in `PriorityRing`.
- Taking a frame from the queue, putting one back, recovering and the driver's record of a frame are
  one step each: nothing interrupts them. The source has a critical section only around the first; an
  interrupt inside a re-insertion or a recovery is not covered, one inside the record by
  `MutedTransmitter` alone.
- Interrupts come inside the driver call between the hardware's acceptance of a frame and the driver's
  recording of it (interfaces/interfaces_g474/CommInterface/comm_interface.cpp:672-675). Filling in
  the transmit header and testing the state, which precede the acceptance, are one step with it.
- A frame that overruns its queue item leaves the modelled messenger as it is; what the source does
  after that copy is undefined and nothing is claimed about it.
- A frame counts as sent when the hardware takes it; that a forced recovery may abort it is not
  counted.
- The pending-buffer writer announces the length of a driver call modulo 2^16, as its casts do.
- Requested controller states are one of the nine enumeration values.
- Sizes and sync bytes of bluelink packets are parameters (`Format`); the length byte lies behind
  the sync bytes and inside the prefix. `COMM_DATA_LENGTH` is 8.
- State codes such as DONE are told apart from flash addresses by constructors; in the source they
  share a field, and their values lie outside the flash address range.
- `Guards.Open` keeps a definition closed in proofs that only pass it on; it is always true.

## Model

| member | source | states |
|---|---|---|
| `Bytes.BytesOfNumber` | application/MicroSequenceExecutor/micro_sequence_executor.cpp:42-52 | copying bytes into a zeroed integer and back gives the bytes, followed by zeros |
| `Bytes.NumberOfBytes` | application/MicroSequenceExecutor/micro_sequence_executor.cpp:54-63 | copying an integer out into enough bytes and back gives the integer |
| `Bytes.SlotHoldsBytes` | application/MicroSequenceExecutor/micro_sequence_executor.cpp:42-52 | a slot into which up to 8 bytes were stored holds exactly these bytes, the rest zero, also when the value is negative as a signed number |
| `Bytes.LoadAfterStore` | application/MicroSequenceExecutor/micro_sequence_executor.cpp:42-63 | storing n bytes in a slot and loading m <= n of them gives the first m |
| `BitOps.MaskedShiftIsByteAt` | application/MicroSequenceExecutor/micro_sequence_executor.cpp:640 | shifting right by 8k bits and masking with 0xFF, bit by bit, selects the k-th byte |
| `BitOps.MaskedOrIsSetByte` | application/MicroSequenceExecutor/micro_sequence_executor.cpp:642-643 | clearing byte k with a shifted complement mask and or-ing a shifted byte in, bit by bit, is replacing that byte |
| `Bytes.SetByteReplacesOne` | application/MicroSequenceExecutor/micro_sequence_executor.cpp:639-644 | which changes byte k of the word and no other |
| `MicroVarStore.VarStore.Read` | application/MicroVarStore/micro_var_store.cpp:5-10 | the slot's value, and 0 for an index outside the table |
| `MicroVarStore.VarStore.Set` | application/MicroVarStore/micro_var_store.cpp:12-17 | exactly one slot changes, none for an index outside the table |
| `MicroVarStore.VarStore.ClearAll` | application/MicroVarStore/micro_var_store.cpp:19 | every slot becomes 0 |
| `MicroOps.EffectOf` | application/MicroSequenceExecutor/micro_sequence_executor.cpp:282-679 | a step makes at most two driver calls, only a CAN transmission can end BUSY, and only the two move operations ask the controller to move |
| `OperationMeanings.VarSetStores` | application/MicroSequenceExecutor/micro_sequence_executor.cpp:596-603 | exactly the named slot takes the literal; refused iff there is no such slot |
| `OperationMeanings.VarAddAdds` | application/MicroSequenceExecutor/micro_sequence_executor.cpp:617-626 | exactly the destination takes the sum, modulo 2^64 when it does not fit; refused iff one of the slots does not exist |
| `OperationMeanings.VarMulScales` | application/MicroSequenceExecutor/micro_sequence_executor.cpp:605-615 | exactly the destination takes the product divided with the fraction cut off - remainder smaller than the divisor and with the sign of the product; refused iff a slot does not exist or the divisor is 0 |
| `OperationMeanings.VarBytesAssignReplaces` | application/MicroSequenceExecutor/micro_sequence_executor.cpp:628-647 | byte by byte, the addressed range of the destination holds the low bytes of the source and the rest is kept; refused iff a slot does not exist or the range is empty or too long |
| `OperationMeanings.GpioWriteDrives` | application/MicroSequenceExecutor/micro_sequence_executor.cpp:337-345 | the pin is driven high iff the value is not 0; a safety pin is refused without a driver call |
| `OperationMeanings.GpioReadStores` | application/MicroSequenceExecutor/micro_sequence_executor.cpp:347-364 | 1 or 0 is stored as the driver answers, nothing when it fails |
| `OperationMeanings.AdcReadStores` | application/MicroSequenceExecutor/micro_sequence_executor.cpp:366-397 | millivolts are asked for only when wanted and stored when that succeeds, otherwise the 16-bit raw value; refused iff the slot or the converter does not exist |
| `OperationMeanings.DacWriteSets` | application/MicroSequenceExecutor/micro_sequence_executor.cpp:399-426 | the converter gets the low 12 bits of the slot, or the literal clamped to 4095 |
| `OperationMeanings.PwmSetSets` | application/MicroSequenceExecutor/micro_sequence_executor.cpp:428-450 | the duty is the low 16 bits of the slot or the literal, clamped to 100 |
| `OperationMeanings.TransmitSends` | application/MicroSequenceExecutor/micro_sequence_executor.cpp:452-529 | the first bytes of the literal or of the slot are sent, a CAN frame cut to 8; only CAN hands on the status of its driver |
| `OperationMeanings.ReceiveStores` | application/MicroSequenceExecutor/micro_sequence_executor.cpp:531-594 | the slot holds the received bytes followed by zeros; nothing is stored when the driver fails |
| `OperationMeanings.MoveAsksController` | application/MicroSequenceExecutor/micro_sequence_executor.cpp:649-670 | the controller is asked for ERROR or EMERGENCY, if there is a controller |
| `OperationMeanings.TriggerSafetyDrives` | application/MicroSequenceExecutor/micro_sequence_executor.cpp:672-679 | the safety line follows the value, whatever the driver answers |
| `OperationMeanings.OtherStepsDoNothing` | application/MicroSequenceExecutor/micro_sequence_executor.cpp:282-335 | NOP succeeds without any effect, and what is no executable operation is refused without any |
| `SequenceSafety.TicksMakeLegalCalls` | application/MicroSequenceExecutor/micro_sequence_executor.cpp:194-280 | any ticks of any executor: no safety pin is written, converter values are in range, transfers have 1 to 8 bytes, absent collaborators are not called, the table keeps its size |
| `SequenceSafety.ImmediateFollows` | application/MicroSequenceExecutor/micro_sequence_executor.cpp:121-165 | the same of the blocking interpreter |
| `ConditionMeanings.IfComparesNumbers` | application/MicroSequenceExecutor/micro_sequence_executor.cpp:139-157 | the blocking run enters the body of an IF iff the two numbers compare so, for each of the six comparisons, and fails for missing slots, an unknown comparison or a body that does not fit |
| `ConditionMeanings.TickComparesNumbers` | application/MicroSequenceExecutor/micro_sequence_executor.cpp:224-244 | so does a tick |
| `ConditionMeanings.GuardedAssignment` | application/MicroSequenceExecutor/micro_sequence_executor.cpp:681-701 | a guarded assignment, run by one tick or at once, assigns iff the two numbers compare so |
| `MicroSequenceExecutor.AssignBytes` | application/MicroSequenceExecutor/micro_sequence_executor.cpp:628-647 | exactly the bytes [index, index + count) of the destination become the low bytes of the source, also when both are the same slot |
| `MicroSequenceExecutor.AssignOneByte` | application/MicroSequenceExecutor/micro_sequence_executor.cpp:639-644 | one round of shifts, masks and bitwise operators extends the replaced part by one byte |
| `MicroSequenceExecutor.Executor.ExecuteVarBytesAssign` | application/MicroSequenceExecutor/micro_sequence_executor.cpp:628-647 | only the destination slot changes, to the byte-wise replacement, and nothing when the operation is refused |
| `MicroSequenceExecutor.Executor.ExecuteGpioWrite` | application/MicroSequenceExecutor/micro_sequence_executor.cpp:337-345 | the handler makes the driver call and gives the verdict of its specification |
| `MicroSequenceExecutor.Executor.ExecuteGpioRead` | application/MicroSequenceExecutor/micro_sequence_executor.cpp:347-364 | and stores only after a successful answer |
| `MicroSequenceExecutor.Executor.ExecuteAdcRead` | application/MicroSequenceExecutor/micro_sequence_executor.cpp:366-397 | one or two driver calls and one store |
| `MicroSequenceExecutor.Executor.ExecuteDacWrite` | application/MicroSequenceExecutor/micro_sequence_executor.cpp:399-426 | masked or clamped value |
| `MicroSequenceExecutor.Executor.ExecutePwmSet` | application/MicroSequenceExecutor/micro_sequence_executor.cpp:428-450 | masked, then clamped duty |
| `MicroSequenceExecutor.Executor.ExecuteCanTransmit` | application/MicroSequenceExecutor/micro_sequence_executor.cpp:452-472 | clamped length, slot bytes or literal, the status of the driver |
| `MicroSequenceExecutor.Executor.ExecuteBusTransmit` | application/MicroSequenceExecutor/micro_sequence_executor.cpp:474-529 | UART, SPI and I2C: a length over 8 is refused instead |
| `MicroSequenceExecutor.Executor.ExecuteReceive` | application/MicroSequenceExecutor/micro_sequence_executor.cpp:531-594 | the four receive handlers |
| `MicroSequenceExecutor.Executor.ExecuteVarSet` | application/MicroSequenceExecutor/micro_sequence_executor.cpp:596-603 | one store |
| `MicroSequenceExecutor.Executor.ExecuteVarMul` | application/MicroSequenceExecutor/micro_sequence_executor.cpp:605-615 | one load and one store, also when both are the same slot |
| `MicroSequenceExecutor.Executor.ExecuteVarAdd` | application/MicroSequenceExecutor/micro_sequence_executor.cpp:617-626 | one load and one store, also when both are the same slot |
| `MicroSequenceExecutor.Executor.ExecuteMove` | application/MicroSequenceExecutor/micro_sequence_executor.cpp:649-670 | the controller is asked; the executor itself is stopped by its caller |
| `MicroSequenceExecutor.Executor.ExecuteTriggerSafety` | application/MicroSequenceExecutor/micro_sequence_executor.cpp:672-679 | the line is driven and the answer is not looked at |
| `MicroSequenceExecutor.Executor.EvaluateCondition` | application/MicroSequenceExecutor/micro_sequence_executor.cpp:681-701 | both slots are read and compared as the step says |
| `MicroSequenceExecutor.Executor.ExecuteStep` | application/MicroSequenceExecutor/micro_sequence_executor.cpp:282-347 | one step has the status, the slot write, the driver calls and the move of its specification and no other effect |
| `MicroSequenceExecutor.Executor.RunStepsImmediate` | application/MicroSequenceExecutor/micro_sequence_executor.cpp:121-165 | the loop computes the recursive meaning of the blocking interpreter; it terminates and its index stays within the list |
| `MicroSequenceExecutor.Executor.RunSequenceImmediate` | application/MicroSequenceExecutor/micro_sequence_executor.cpp:112-119 | refused without any effect for 0 or more than 30 steps, otherwise the executor ends stopped with the blocking run's result |
| `MicroSequenceExecutor.Executor.StartSequence` | application/MicroSequenceExecutor/micro_sequence_executor.cpp:167-183 | refused while running or for a bad length, otherwise at step 0 with the given loop flag |
| `MicroSequenceExecutor.Executor.Stop` | application/MicroSequenceExecutor/micro_sequence_executor.cpp:185-192 | every field returns to its power-on value |
| `MicroSequenceExecutor.Executor.TickOnce` | application/MicroSequenceExecutor/micro_sequence_executor.cpp:194-280 | one tick takes fields, variables and driver calls to the specification's next state, keeps the position inside the sequence, and reports the move that ended it |
| `MicroSequenceExecutor.Executor.RunUntilYield` | application/MicroSequenceExecutor/micro_sequence_executor.cpp:213-279 | the loop stops at the first delay, BUSY transmission, failure or move, or at the end of the sequence, and its index only grows |
| `MicroSequenceExecutor.Executor.TickCondition` | application/MicroSequenceExecutor/micro_sequence_executor.cpp:224-244 | an IF step fails, jumps over its body or enters it, and the index grows unless it fails |
| `MicroSequenceExecutor.Executor.TickStep` | application/MicroSequenceExecutor/micro_sequence_executor.cpp:246-268 | a step is kept for the next tick when BUSY, ends the run when it fails, ends the tick when it moves the controller, and is passed otherwise |
| `ExecutorSpec.Tick` | application/MicroSequenceExecutor/micro_sequence_executor.cpp:194-280 | the position stays within the sequence, and a pending delay is always at one of its steps |
| `ExecutorSpec.StartsOneToThirtySteps` | application/MicroSequenceExecutor/micro_sequence_executor.cpp:167-183 | a stopped executor starts exactly the sequences of 1 to 30 steps, at the first step and with the given loop flag; otherwise nothing changes |
| `ExecutorEquivalence.AdvanceMatches` | application/MicroSequenceExecutor/micro_sequence_executor.cpp:121-280 | from any position, what one tick does followed by the blocking run from where it stopped is the blocking run |
| `ExecutorEquivalence.TicksKeepStep` | application/MicroSequenceExecutor/micro_sequence_executor.cpp:121-280 | after any number of ticks, the rest of the blocking run leads to the same end |
| `ExecutorEquivalence.TicksRefineImmediate` | application/MicroSequenceExecutor/micro_sequence_executor.cpp:121-280 | a finished run of ticks has the variables, driver calls, pauses and moves of the blocking run once BUSY transmissions are deleted; it ends IDLE iff that run returns true and ERROR iff it returns false |
| `ExecutorEquivalence.ReplayedRunAgrees` | application/MicroSequenceExecutor/micro_sequence_executor.cpp:121-280 | answers recorded in any finished run of ticks drive the blocking run to the same end |
| `LoopingSequences.LoopRepeatsBlockingRun` | application/MicroSequenceExecutor/micro_sequence_executor.cpp:271-275 | after any ticks in which k passes have ended, the quiet world is that of k blocking runs, each from step 0 on what the one before left, followed by the part of the next that is done; the loop stops only when such a run fails |
| `LoopingSequences.EndedPassStartsOver` | application/MicroSequenceExecutor/micro_sequence_executor.cpp:271-275 | a tick that ends a pass leaves exactly the world of so many blocking runs, and the next tick runs the steps from the first one on |
| `LoopingSequences.LoopKeepsEndingPasses` | application/MicroSequenceExecutor/micro_sequence_executor.cpp:194-280 | a loop with D delays that is still running has ended a pass for every D + 1 unstalled ticks |
| `LoopingSequences.PassesRepeatMeaning` | application/MicroSequenceExecutor/micro_sequence_executor.cpp:121-165 | repeating the flat form of a nested program is repeating its meaning |
| `StructuredPrograms.FlatBlockRuns` | application/MicroSequenceExecutor/micro_sequence_executor.cpp:139-164 | a flattened block placed anywhere in a sequence does what the nested block means and then goes on behind it |
| `StructuredPrograms.FlatteningPreservesMeaning` | application/MicroSequenceExecutor/micro_sequence_executor.cpp:121-165 | the jump interpreter gives a flattened nested program its structured meaning: bodies run iff their condition holds, and the length check never fails |
| `StructuredPrograms.TicksPreserveMeaning` | application/MicroSequenceExecutor/micro_sequence_executor.cpp:194-280 | so does the resumable interpreter, over any ticks |
| `StructuredPrograms.Unflatten` | application/MicroSequenceExecutor/micro_sequence_executor.cpp:146-157 | every list whose IF bodies lie inside their block is the flat form of a nested program |
| `StructuredPrograms.FlatteningsAreWellNested` | application/MicroSequenceExecutor/micro_sequence_executor.cpp:146-157 | and every flat form is such a list, read back as the program it came from |
| `ExecutorProgress.TickSpendsBudget` | application/MicroSequenceExecutor/micro_sequence_executor.cpp:204-222 | every unstalled tick of a non-looping sequence uses up one of delays-left + 1, and no tick adds any |
| `ExecutorProgress.DelayEndsOnTime` | application/MicroSequenceExecutor/micro_sequence_executor.cpp:79-90 | a waiting tick goes on exactly when the delay's milliseconds have passed on a real clock, also across a wrap; a delay of 0 holds nothing up |
| `ExecutorProgress.TickAccounts` | application/MicroSequenceExecutor/micro_sequence_executor.cpp:79-90 | the delays that are over fit into the real time that has passed, although the clock is only seen modulo 2^32 |
| `GpcController.ControllerObject.constructor` | application/GpcController/gpc_controller.cpp:6-9 | the controller starts in MANUAL with both executors stopped |
| `GpcController.ControllerObject.SendSetStateRequest` | application/GpcController/gpc_controller.cpp:21-62 | answer and new state are those of the request table |
| `GpcController.ControllerObject.EnterState` | application/GpcController/gpc_controller.cpp:64-83 | EMERGENCY stays; otherwise the state changes and its executor is stopped and marked not started |
| `GpcController.ControllerObject.OnOneShotSequenceComplete` | application/GpcController/gpc_controller.cpp:135-140 | a state with a successor is left for it, any other stays |
| `GpcController.ControllerObject.TickMainSequence` | application/GpcController/gpc_controller.cpp:142-148 | the main sequence advances by one tick, moves the controller if it says so, and is restarted looping when it is not running |
| `GpcController.ControllerObject.TickStateSequence` | application/GpcController/gpc_controller.cpp:150-180 | controller, state executor, variables and driver calls go to the specification's next state |
| `GpcController.ControllerObject.TickController` | application/GpcController/gpc_controller.cpp:182-185 | first the main, then the state sequence, on the same variables and drivers |
| `ControllerRuns.CommandsTakeCommandEdges` | application/GpcController/gpc_controller.cpp:21-62 | a command changes the state exactly along the listed command transitions, and never to a third state |
| `ControllerRuns.RequestAnswer` | application/GpcController/gpc_controller.cpp:21-62 | a request returns true iff afterwards the state is the requested one or its after-sequence successor |
| `ControllerRuns.StepTakesAnEdge` | application/GpcController/gpc_controller.cpp:64-83 | every step keeps the state or follows one transition of its own kind: command, completion or move |
| `ControllerRuns.EmergencyIsFinal` | application/GpcController/gpc_controller.cpp:64-67 | no run of commands, ticks and moves leaves EMERGENCY |
| `ControllerRuns.TechnicianIsUnreachable` | application/GpcController/gpc_controller.cpp:47-56 | no run from power-on reaches TECHNICIAN |
| `ControllerRuns.OperationalAndManual` | application/GpcController/gpc_controller.cpp:122-140 | OPERATIONAL is entered only by a tick in POWER_UP_BIT; MANUAL is left only to INIT by command, ERROR or EMERGENCY |
| `ControllerRuns.CompletionNeedsSequenceEnd` | application/GpcController/gpc_controller.cpp:150-180 | a tick completes a state iff the state has a successor and its sequence is empty, or was started, does not move the controller in the tick and is not running after it |
| `ControllerRuns.FailedSequenceCompletes` | application/GpcController/gpc_controller.cpp:171-175 | also after a failure: INIT with a step no executor knows goes on to ENGAGED in the tick that fails |
| `ControllerRuns.StateTickKeepsBound` | application/GpcController/gpc_controller.cpp:150-180 | a state tick keeps "stopped, or running the current state's sequence with its loop flag" iff it does not end in a move to a state with another sequence or loop flag |
| `ControllerRuns.StateAndSequenceAgree` | application/GpcController/gpc_controller.cpp:64-83 | that binding holds in every reachable state when no state sequence moves the controller |
| `StateSequences.StatesRunTheirFields` | application/GpcController/gpc_controller.cpp:89-125 | state by state: what the executor runs in any reachable state is the sequence stored for it, looping except in the three one-shot states; never TECHNICIAN |
| `StateSequences.FreshStateTakesUpItsField` | application/GpcController/gpc_controller.cpp:150-180 | state by state: of two ticks in a state just entered, the first starts its stored sequence and the second executes it from the first step on |
| `StateSequences.ChangedStateIsFresh` | application/GpcController/gpc_controller.cpp:64-83 | a command, a move from outside or a completed one-shot sequence that changes the state leaves it just entered |
| `StateSequences.MainRunsMainTick` | application/GpcController/gpc_controller.cpp:142-148 | over every run the main executor runs the main sequence and nothing else, looping |
| `StateSequences.MainAlwaysRuns` | application/GpcController/gpc_controller.cpp:142-148 | after any tick it is running, started over at the first step when it was not |
| `StateSequences.MainComesFirst` | application/GpcController/gpc_controller.cpp:182-185 | in one tick the state sequence goes on in the world that the main sequence has left |
| `ControllerRuns.MovingSequenceIsRestarted` | application/GpcController/gpc_controller.cpp:177-179 | a MANUAL sequence that moves to ERROR is running again in ERROR |
| `OneShotStates.CommandsEnter` | application/GpcController/gpc_controller.cpp:59-70 | a command that changes the state to a one-shot state leaves the controller at the start of that state's run |
| `OneShotStates.StillInside` | application/GpcController/gpc_controller.cpp:150-180 | while a one-shot state lasts, unstalled ticks plus what the sequence may still need never exceed the initial bound |
| `OneShotStates.OneShotAdvances` | application/GpcController/gpc_controller.cpp:122-180 | a one-shot state with D delays is left within D + 2 unstalled ticks, and only for its successor |
| `OneShotStates.OverlongOneShotStays` | application/GpcController/gpc_controller.cpp:177-179 | with more than 30 steps it is never left by ticks |
| `OneShotStates.OneShotTakesItsDelays` | application/MicroSequenceExecutor/micro_sequence_executor.cpp:79-90 | when a one-shot state is left, at least the sum of the delays it started has passed since its first tick |
| `OneShotStates.AfterIsRun` | application/GpcController/gpc_controller.cpp:182-185 | the timed runs of these claims are runs of the controller |
| `PriorityOrder.InsertedAtPosition` | interfaces/interfaces_g474/CanMessenger/can_messenger.cpp:282-305 | the new item goes in front of the first item of a greater priority value, all others keep their order |
| `PriorityOrder.InsertionIsStable` | interfaces/interfaces_g474/CanMessenger/can_messenger.cpp:282-305 | in a sorted queue, exactly the items at least as urgent stay in front of the new one, and the queue stays sorted |
| `PriorityOrder.SortedPop` | interfaces/interfaces_g474/CanMessenger/can_messenger.cpp:332-362 | in a sorted queue the scan for the best item is a plain pop of the head |
| `PriorityOrder.InsertionAppends` | interfaces/interfaces_g474/CanMessenger/can_messenger.cpp:282-305 | insertion appends to the item's own priority class and leaves the other classes alone |
| `PriorityOrder.FirstInFirstOut` | interfaces/interfaces_g474/CanMessenger/can_messenger.cpp:282-394 | over any run of insertions and removals, items of one priority leave in the order in which they arrived, none lost or duplicated |
| `PriorityRing.WrittenTargetInBounds` | interfaces/interfaces_g474/CanMessenger/can_messenger.cpp:293-294 | the shift target as written is the intended slot iff it does not wrap below zero; otherwise it lies outside the array |
| `PriorityRing.WrittenTargetIsStoredRemainder` | interfaces/interfaces_g474/CanMessenger/can_messenger.cpp:293-294 | what the written expression stores: the difference, or 256 more when it is negative |
| `PriorityRing.SlotIsModulo` | interfaces/interfaces_g474/CanMessenger/can_messenger.cpp:282-305 | position i of the queue is stored at (head + i) mod SIZE |
| `PriorityRing.Ring.InsertWithPriority` | interfaces/interfaces_g474/CanMessenger/can_messenger.cpp:282-330 | every store is in bounds iff the `+ SIZE` form is used or tail + 1 >= the number of shifts; then the queue becomes the stable insertion, for any head, with tail = (head + count) mod SIZE |
| `PriorityRing.Ring.ShiftUp` | interfaces/interfaces_g474/CanMessenger/can_messenger.cpp:292-296 | the items from the insert position on move up by one, in place, the others stay |
| `PriorityRing.Ring.Dequeue` | interfaces/interfaces_g474/CanMessenger/can_messenger.cpp:332-394 | for any queue content, the earliest item of the smallest priority value leaves and the rest keep their order |
| `PriorityRing.Ring.FindBest` | interfaces/interfaces_g474/CanMessenger/can_messenger.cpp:338-346 | the scan finds the earliest item of the smallest priority value |
| `PriorityRing.Ring.CloseGap` | interfaces/interfaces_g474/CanMessenger/can_messenger.cpp:350-356 | the items in front of the gap move up by one, in place |
| `PriorityRing.WrappedInsertionLeavesArray` | interfaces/interfaces_g474/CanMessenger/can_messenger.cpp:291-296 | after thirty messages have gone through, an urgent message passing two waiting ones stores outside the array as written |
| `CanTransmitter.CommCan.StartTransmitInterrupt` | interfaces/interfaces_g474/CommInterface/comm_interface.cpp:655-687 | status and new state for each of the driver's answers |
| `CanTransmitter.CommCan.OfferFrame` | interfaces/interfaces_g474/CommInterface/comm_interface.cpp:655-674 | the call up to the hardware's answer: OK iff the frame is taken, with the fields untouched until then; any refusal is final |
| `CanTransmitter.CommCan.RecordTaken` | interfaces/interfaces_g474/CommInterface/comm_interface.cpp:675-687 | the rest: transmitting since the given time, flag down and no errors, whatever came in between |
| `CanTransmitter.CommCan.RecoverStuckTransmit` | interfaces/interfaces_g474/CommInterface/comm_interface.cpp:810-828 | recovers iff forced, timed out or faulted, and is then ready with no errors and the flag up |
| `CanTransmitter.CommCan.HandleCanError` | interfaces/interfaces_g474/CommInterface/comm_interface.cpp:859-882 | the error count saturates at ten, where the state becomes ERROR |
| `CanTransmitter.CommCan.SetTransmitComplete` | interfaces/interfaces_g474/CommInterface/comm_interface.cpp:1031-1042 | ready and available, whatever it was before |
| `CanTransmitter.CommCan.StartCanPeripheral` | interfaces/interfaces_g474/CommInterface/comm_interface.cpp:620-633 | ready with no errors when the driver starts, one more error otherwise |
| `CanTransmitter.ReachableTransmitters` | interfaces/interfaces_g474/CommInterface/comm_interface.cpp:655-882 | in every reachable state transmitting means the flag is down, a flag that is down means transmitting or ERROR, and the error count is the number of failures since the last reset, capped at ten |
| `CanTransmitter.EnteringError` | interfaces/interfaces_g474/CommInterface/comm_interface.cpp:859-882 | ERROR is entered exactly by a failure that is at least the tenth since the last reset |
| `CanTransmitter.StuckFrameTimesOut` | interfaces/interfaces_g474/CommInterface/comm_interface.cpp:810-828 | 100 ms after the last accepted frame, on a clock that has not gone round, a plain recovery makes the transmitter available |
| `CanTransmitter.FrameInTimeIsLeftAlone` | interfaces/interfaces_g474/CommInterface/comm_interface.cpp:810-828 | before 100 ms a plain recovery does nothing to a frame on its way |
| `CanMessenger.CanMessengerObject.EnqueueTxMessage` | interfaces/interfaces_g474/CanMessenger/can_messenger.cpp:37-75 | refused, accepted or overrunning its 8-byte item; queue, transmitter and history go to the specification's next state, on the circular array |
| `CanMessenger.CanMessengerObject.ProcessQueueFromTick` | interfaces/interfaces_g474/CanMessenger/can_messenger.cpp:177-230 | the same for one tick, with interrupts between its steps and inside the hand-over to the driver |
| `CanMessenger.CanMessengerObject.SendQueuedMessage` | interfaces/interfaces_g474/CanMessenger/can_messenger.cpp:396-414 | a frame counts as sent when the hardware takes it; interrupts that come before the driver records this act on the fields as they were, and the record then overwrites theirs |
| `CanMessenger.CanMessengerObject.DrainQueue` | interfaces/interfaces_g474/CanMessenger/can_messenger.cpp:192-229 | the loop sends at most three frames and ends at the first one that goes back |
| `CanMessenger.CanMessengerObject.GiveItemBack` | interfaces/interfaces_g474/CanMessenger/can_messenger.cpp:206-226 | a frame goes back with priority min(p + 1, 3) when BUSY, unchanged and with a recovery otherwise |
| `CanMessenger.CanMessengerObject.ProcessQueueFromInterrupt` | interfaces/interfaces_g474/CanMessenger/can_messenger.cpp:232-259 | at most one frame, put back unchanged when it could not be sent |
| `MessengerRuns.PushConserves` | interfaces/interfaces_g474/CanMessenger/can_messenger.cpp:206-226 | a re-insertion finds room and loses no frame |
| `MessengerRuns.GiveBackConserves` | interfaces/interfaces_g474/CanMessenger/can_messenger.cpp:206-226 | a retried frame keeps its payload and finds room although interrupts come in between |
| `MessengerRuns.RetryPromotes` | interfaces/interfaces_g474/CanMessenger/can_messenger.cpp:206-217 | a BUSY retry makes a frame more urgent iff its priority is greater than 3, and less urgent iff it is smaller |
| `MessengerRuns.RetriedKinds` | interfaces/interfaces_g474/CanMessenger/can_messenger.cpp:206-217 | a retried frame takes the place of the next less urgent kind, down to analog telemetry |
| `MessengerRuns.HandOverConserves` | interfaces/interfaces_g474/CommInterface/comm_interface.cpp:655-687 | handing a frame over keeps the balance, also when further frames are sent by interrupts before it is recorded |
| `MessengerRuns.EnqueueConserves` | interfaces/interfaces_g474/CanMessenger/can_messenger.cpp:37-75 | a frame is accepted iff its length is 1 to 8, and is then in the queue: the second full check never fires; lengths 9 to 64 pass the check and overrun the item |
| `MessengerRuns.OverflowDiscards` | interfaces/interfaces_g474/CanMessenger/can_messenger.cpp:37-75 | a frame that finds 32 waiting throws exactly these away and makes the transmitter ready; with fewer waiting nothing is thrown away |
| `MessengerRuns.TickConserves` | interfaces/interfaces_g474/CanMessenger/can_messenger.cpp:177-230 | one tick with any interrupts keeps the balance of frames |
| `MessengerRuns.RunsConserve` | interfaces/interfaces_g474/CanMessenger/can_messenger.cpp:37-259 | so does every run of enqueues, ticks, interrupts and direct sends |
| `MessengerRuns.RunsBalance` | interfaces/interfaces_g474/CanMessenger/can_messenger.cpp:37-259 | accepted = sent + queued + discarded as multisets of frames, at most 32 queued, the queue sorted, the transmitter's state and flag in agreement |
| `MessengerRuns.DirectSendConserves` | application/BluewhiteCanComm/bluewhite_can_comm.cpp:173-197 | a frame sent past the queue does not disturb the balance, also with interrupts inside the driver call |
| `MessengerOrder.FramesLeaveInOrder` | interfaces/interfaces_g474/CanMessenger/can_messenger.cpp:37-259 | over every run of the messenger, frames of one priority leave the queue in the order in which they entered it; a frame put back enters again |
| `MessengerOrder.SentInOrder` | interfaces/interfaces_g474/CanMessenger/can_messenger.cpp:192-229 | when at most one transmission completes while a tick holds a frame, frames are sent in the order in which they left the queue |
| `MessengerOrder.HeldFrameIsOvertaken` | interfaces/interfaces_g474/CanMessenger/can_messenger.cpp:195-204 | with two completions there, a run in which no frame is put back and frames a, b, c leave the queue in this order sends a, c, b |
| `MessengerOrder.SentInOrderIff` | interfaces/interfaces_g474/CanMessenger/can_messenger.cpp:177-259 | the exact limit: all runs with at most n completions during each hold send frames in the order in which they left the queue iff n <= 1 |
| `ArrivalOrder.RunsAreTraced` | interfaces/interfaces_g474/CanMessenger/can_messenger.cpp:37-259 | in any run in which nothing is put back, what entered the queue is what was accepted, in order and with the priority of its kind |
| `ArrivalOrder.SentInArrivalOrder` | interfaces/interfaces_g474/CanMessenger/can_messenger.cpp:37-259 | when nothing is put back and at most one transmission completes during a hold, the frames of each priority are sent in the order in which they were accepted |
| `FrameUrgency.UrgentFramesFirst` | interfaces/interfaces_g474/CanMessenger/can_messenger.cpp:439-452 | as long as nothing is put back, programming commands stand in front of metadata and version frames, these in front of reverser telemetry, that in front of analog telemetry, and that in front of all other kinds |
| `FrameUrgency.SameUrgencyInArrivalOrder` | interfaces/interfaces_g474/CanMessenger/can_messenger.cpp:439-452 | and frames of the same urgency, metadata and version frames together, leave in the order in which they were accepted |
| `FrameUrgency.InterruptSendsHead` | interfaces/interfaces_g474/CanMessenger/can_messenger.cpp:232-259 | after a completed transmission the head of the queue is the next frame the hardware takes |
| `FrameUrgency.TickSendsHead` | interfaces/interfaces_g474/CanMessenger/can_messenger.cpp:192-204 | so it is for a tick that is not interrupted before it hands its first frame over |
| `FrameUrgency.MostUrgentIsSentNext` | interfaces/interfaces_g474/CanMessenger/can_messenger.cpp:232-259 | so no frame that stays queued is of a more urgent kind than the one sent |
| `HandOvers.RefusedInInterrupt` | interfaces/interfaces_g474/CanMessenger/can_messenger.cpp:232-259 | a frame the hardware does not take in the interrupt is back in the queue; what the transmitter is left as for a full FIFO, a busy driver and a failure |
| `HandOvers.RefusedFrameLosesItsTurn` | interfaces/interfaces_g474/CanMessenger/can_messenger.cpp:232-259 | the next frame of the same priority is then first |
| `HandOvers.CompletionInsideSendsNext` | interfaces/interfaces_g474/CommInterface/comm_interface.cpp:672-678 | a completion before the record sends the next frame too, and the record tells of the first alone |
| `HandOvers.CompletionBeforeRecoverySends` | interfaces/interfaces_g474/CanMessenger/can_messenger.cpp:222-226 | a completion between re-insertion and recovery sends a most urgent frame, and the recovery makes the transmitter ready nevertheless |
| `HandOvers.CompletionBeforeGivingBack` | interfaces/interfaces_g474/CanMessenger/can_messenger.cpp:206-217 | a completion after a BUSY answer sends the head before the held frame goes back |
| `HandOvers.DirectSendFromReady` | application/BluewhiteCanComm/bluewhite_can_comm.cpp:173-197 | a direct send occupies the transmitter, changes nothing or counts a failure, as the driver answers, and never touches the queue |
| `HandOvers.DirectSendWhileBusy` | application/BluewhiteCanComm/bluewhite_can_comm.cpp:179-184 | with a frame on its way it does nothing before the timeout and recovers first after it |
| `HandOvers.CompletionInsideDirectSend` | application/BluewhiteCanComm/bluewhite_can_comm.cpp:173-197 | a completion in the middle of it sends the head of the queue |
| `MessengerProgress.DrainOffersOrRests` | interfaces/interfaces_g474/CanMessenger/can_messenger.cpp:192-229 | with frames queued and the flag up the loop offers a frame to the hardware, or the transmitter is ready with no errors afterwards and frames still queued, whatever interrupts come |
| `MessengerProgress.RestedTickOffers` | interfaces/interfaces_g474/CanMessenger/can_messenger.cpp:177-230 | from such a transmitter a tick offers a frame unless the interrupts before that reach the error limit |
| `MessengerProgress.FewFailuresAreHarmless` | interfaces/interfaces_g474/CommInterface/comm_interface.cpp:859-882 | fewer than ten receive failures never reach the limit, and ten do when nothing else comes |
| `MessengerProgress.TwoTicksReachHardware` | interfaces/interfaces_g474/CanMessenger/can_messenger.cpp:177-230 | with frames queued and 100 ms since the last accepted one, two ticks offer a frame to the hardware, whatever comes in the first, as long as receive failures do not reach the error limit before the second offers its frame |
| `MessengerProgress.TwoTicksWithFewFailures` | interfaces/interfaces_g474/CanMessenger/can_messenger.cpp:177-230 | in particular with fewer than ten receive failures there |
| `MessengerProgress.CompletionInsideIsMissed` | interfaces/interfaces_g474/CommInterface/comm_interface.cpp:672-675 | with nothing queued, a completion before the record leaves the transmitter busy although the frame is sent; a plain recovery frees it iff 100 ms have passed since the frame was taken |
| `MessengerProgress.ReceiveFailuresStarve` | interfaces/interfaces_g474/CommInterface/comm_interface.cpp:859-882 | from a rested transmitter and without transmit interrupts a tick offers nothing iff receive failures reach the error limit before the frame is offered; then nothing is sent, frames are still queued and the transmitter rests again |
| `MessengerProgress.TenFailuresStarve` | interfaces/interfaces_g474/CommInterface/comm_interface.cpp:859-882 | with receive failures alone before the frame is offered: iff there are at least ten |
| `MessengerProgress.StarvedForever` | interfaces/interfaces_g474/CommInterface/comm_interface.cpp:859-882 | and that can go on for any number of ticks |
| `MutedTransmitter.CompletionAmidRecordMutes` | interfaces/interfaces_g474/CommInterface/comm_interface.cpp:675-678 | with nothing queued and no failures in between, state and flag disagree after the record iff a transmission completed between its two stores |
| `MutedTransmitter.MutedStep` | interfaces/interfaces_g474/CommInterface/comm_interface.cpp:810-828 | then a step without transmit interrupts offers nothing and changes nothing about that, unless it overflows the queue or brings receive failures to the limit; after either, state and flag agree |
| `MutedTransmitter.MutedUntilOverflowOrLimit` | interfaces/interfaces_g474/CanMessenger/can_messenger.cpp:177-191 | over runs of any length: still muted iff the arriving frames fit the queue and the limit was not reached, with nothing offered up to then |
| `PacketFraming.ParseContinues` | tools/gpc_usb_bluelink/bluelink_packet_log.cpp:602-636 | parsing a stream and then its continuation is parsing all of it |
| `PacketFraming.ChunkingIsInvisible` | tools/gpc_usb_bluelink/bluelink_packet_log.cpp:602-636 | any split of a stream into chunks gives the same skipped bytes, frames and leftover |
| `PacketFraming.ParseConserves` | tools/gpc_usb_bluelink/bluelink_packet_log.cpp:610-636 | skipped bytes, frames and leftover rebuild the input in order |
| `PacketFraming.ParseIsSound` | tools/gpc_usb_bluelink/bluelink_packet_log.cpp:610-636 | every frame starts with the sync bytes and has the length its length byte says; the leftover is no complete packet and bounded in size |
| `PacketFraming.WaitsForLength` | tools/gpc_usb_bluelink/bluelink_packet_log.cpp:610-636 | behind sync bytes a packet is waited for iff there are fewer bytes than prefix + header + suffix or than its length byte says; then it is taken in that length |
| `PacketFraming.RoundTrip` | tools/gpc_usb_bluelink/bluelink_packet_log.cpp:610-636 | well-formed packets with noise free of sync pairs between them are found exactly, with nothing left over |
| `PacketLog.BluelinkPacketLog.Feed` | tools/gpc_usb_bluelink/bluelink_packet_log.cpp:602-608 | after any feeds, frames and buffer are as if everything had arrived at once |
| `PacketLog.BluelinkPacketLog.TryParsePackets` | tools/gpc_usb_bluelink/bluelink_packet_log.cpp:610-636 | the erasing loop computes the parse of the buffer and terminates |
| `PacketLog.BluelinkPacketLog.SkipToSync` | tools/gpc_usb_bluelink/bluelink_packet_log.cpp:610-620 | the search stops at the first sync pair, or keeps the last byte when there is none |
| `PendingWriter.WriteAccountsForBytes` | interfaces/interfaces_g474/CommHandler/comm_interrupts_handler.cpp:9-50 | the bytes the driver took, the lost ones and the pending ones are, in order, the old pending ones and the new data; no call and no pending buffer exceeds the buffer size |
| `PendingWriter.BytesAreLost` | interfaces/interfaces_g474/CommHandler/comm_interrupts_handler.cpp:22-43 | bytes are lost iff a call is made and refused (or longer than 16 bits can say): everything offered, and the new data too when the driver was not available |
| `PendingWriter.WritesKeepOrder` | interfaces/interfaces_g474/CommHandler/comm_interrupts_handler.cpp:9-50 | over a run, bytes taken by the driver followed by the pending ones are all writes in order iff every driver call that is made is answered OK |
| `PendingWriter.CommInterruptsHandler.Write` | interfaces/interfaces_g474/CommHandler/comm_interrupts_handler.cpp:9-50 | at most one driver call, with the specified bytes; the transmit buffer is untouched while the driver is not available |
| `FlashErase.EraseFlash` | interfaces/interfaces_g474/NonVolatileMemoryInterface/non_volatile_memory_interface.cpp:117-149 | OK iff all erase commands were given and succeeded; after a failure no further command is given |
| `FlashErase.EraseFlashBank` | interfaces/interfaces_g474/NonVolatileMemoryInterface/non_volatile_memory_interface.cpp:155-192 | the pages erased start with the one that holds the start address and are as few as the size needs; which pages of flash these are, counted across both banks |
| `FlashErase.CommandIsDetermined` | interfaces/interfaces_g474/NonVolatileMemoryInterface/non_volatile_memory_interface.cpp:155-192 | there is exactly one such command |
| `FlashErase.CommandsStayInBank` | interfaces/interfaces_g474/NonVolatileMemoryInterface/non_volatile_memory_interface.cpp:117-174 | no command is empty, each erases existing pages of its bank of 128, and there are two iff the range has bytes in both banks |
| `FlashErase.MemoryMap` | interfaces/interfaces_g474/MemoryMap/memory_map.hpp:9-18 | where the regions lie in the 512 KB of flash, and that they fill it without gaps |
| `FlashErase.EraseIsExact` | interfaces/interfaces_g474/NonVolatileMemoryInterface/non_volatile_memory_interface.cpp:117-174 | for a range in flash, the erased pages are exactly the pages that meet the range iff the range fits into its rounded length |
| `FlashErase.AlignedRangesFit` | interfaces/interfaces_g474/NonVolatileMemoryInterface/non_volatile_memory_interface.cpp:117-174 | which every page-aligned start does, in one bank or across both |
| `FlashErase.RegionsAreErasedAlone` | interfaces/interfaces_g474/MemoryMap/memory_map.hpp:9-18 | erasing the application or the configuration touches no page of the other regions |
| `Bootloader.AfterWords` | bootloader_projects/bootloader_g474/Core/Src/bootloader_main.cpp:540-583 | after consecutive words the device is still open and its last address is the last word's |
| `Bootloader.WordIsAnsweredIff` | bootloader_projects/bootloader_g474/Core/Src/bootloader_main.cpp:540-583 | a word is answered iff its address lies from 0x08014800 to the end of flash and beyond the last one taken; any other leaves no trace |
| `Bootloader.CommandsProgramOnce` | bootloader_projects/bootloader_g474/Core/Src/bootloader_main.cpp:513-583 | the flash driver is called, once, exactly for a word right behind the pending one and for the end with a word pending; one double word more iff it succeeds |
| `Bootloader.FirstFailure` | bootloader_projects/bootloader_g474/Core/Src/bootloader_main.cpp:548-583 | once a programming call has failed, the place of its double word stays empty: whatever is written later lies beyond it |
| `Bootloader.WordsAreWritten` | bootloader_projects/bootloader_g474/Core/Src/bootloader_main.cpp:548-583 | exactly the pairs of words are in flash iff every programming call that was made succeeded, and an odd last word is then pending |
| `Bootloader.EveryWordIsAnswered` | bootloader_projects/bootloader_g474/Core/Src/bootloader_main.cpp:540-583 | each of the words is answered, whatever the flash driver does |
| `Bootloader.EchoIsNotProgrammed` | bootloader_projects/bootloader_g474/Core/Src/bootloader_main.cpp:556-577 | both words of a pair are answered although their programming failed |
| `FlashSession.AcknowledgedByItsEcho` | programmer/g474/programmer.cpp:97-118 | a word is acknowledged iff the device has taken it and the host reads the answer to that very word: stale and repeated answers never count |
| `FlashSession.WordNeedsItsOnlyEcho` | programmer/g474/programmer.cpp:97-118 | the tries for a word succeed only if the host reads the one answer to it in one of them; the device takes the word at most once |
| `FlashSession.WordsArriveInOrder` | programmer/g474/programmer.cpp:335-372 | whatever the channel does, the device has seen a prefix of the words, once each and in order, and all of them after a success |
| `FlashSession.WordsCarryFile` | programmer/g474/programmer.cpp:335-368 | the words concatenate to the file, zero-padded to a multiple of four bytes |
| `FlashSession.WordsStayInRegion` | programmer/g474/programmer.cpp:74-95 | every word of a file that passes the size check lies inside its target's region and the device accepts its address |
| `FlashSession.FlashHoldsTheFile` | programmer/g474/programmer.cpp:335-377 | after a reported success the flash holds the padded file from the start address on, and nothing else, iff every programming call that was made succeeded and the number of words is even or the device handled the end command |
| `FlashSession.FinishEnds` | bootloader_projects/bootloader_g474/Core/Src/bootloader_main.cpp:513-528 | when the host reads an answer to its end command, the device has handled it, exactly once |
| `FlashSession.ConfirmedFlashHoldsTheFile` | programmer/g474/programmer.cpp:371-372 | if the ignored result of the end command is true, the flash holds the file iff every programming call that was made succeeded |
| `FlashSession.CleanChannelFlashes` | programmer/g474/programmer.cpp:335-372 | over a channel without faults every transfer succeeds, each word on its first try |
| `TransferConditions.WordIsAcknowledgedIff` | programmer/g474/programmer.cpp:97-118 | a word is acknowledged iff, within a hundred turns, one of its repetitions reaches the device and then, or in the same turn, the host reads the answer to it |
| `TransferConditions.HeardMeans` | programmer/g474/programmer.cpp:97-118 | being heard of in time means: in some turn a repetition reaches the device, and in that or a later turn, before the tries are used up, the host reads the answer |
| `TransferConditions.TransferIsReportedIff` | programmer/g474/programmer.cpp:335-377 | a transfer is reported as a success iff each of its words is acknowledged so; a failed one sends no end command |
| `TransferConditions.EndIsConfirmedIff` | programmer/g474/programmer.cpp:205-226 | likewise for the end command, within ten turns |
| `TransferConditions.UnansweredTries` | programmer/g474/programmer.cpp:97-118 | an unanswered word is sent once in every turn of its tries |
| `FlashSession.StaleEchoIsTrusted` | programmer/g474/programmer.cpp:97-118 | with an answer in the channel that names a word's address, some channel acknowledges the word although the device never saw it |
| `FlashSession.SafeIffNotStale` | programmer/g474/programmer.cpp:97-118 | every channel is safe for a word - no acknowledgement before the device has it - iff no such answer is left over from before |
| `Programmer.ProgrammerSession.IsFileValid` | programmer/g474/programmer.cpp:74-95 | valid iff readable and not larger than its region; the size is recorded whenever it is readable |
| `Programmer.ProgrammerSession.WriteFlashData` | programmer/g474/programmer.cpp:97-118 | up to a hundred sends, true at the first answer with the word's address |
| `Programmer.ProgrammerSession.FlashProgram` | programmer/g474/programmer.cpp:335-377 | the reading loop and the padded rest send exactly the words of the file; -1 iff one of them was not acknowledged |
| `Programmer.ProgrammerSession.SendFinish` | programmer/g474/programmer.cpp:205-226 | up to ten end commands, true iff one of them was answered |
| `ByteRoutes.ExtractCommandFields` | application/BluewhiteMessageHandler/bluewhite_message_handler.cpp:12-32 | fields are stored in order up to the first bad one; true iff there is none |
| `ByteRoutes.BuildPayload` | application/GpcTelemetrySender/gpc_telemetry_sender.cpp:36-76 | bad sizes leave the buffer alone; otherwise exactly the payload is filled, zero where nothing is mapped |
| `ByteRoutes.ExtractedSlots` | application/BluewhiteMessageHandler/bluewhite_message_handler.cpp:12-32 | after a successful extraction into distinct slots every slot holds its field's bytes |
| `ByteRoutes.MappedBytes` | application/GpcTelemetrySender/gpc_telemetry_sender.cpp:36-76 | with non-overlapping offsets every mapping's bytes are its slot's low bytes |
| `ByteRoutes.UnmappedBytes` | application/GpcTelemetrySender/gpc_telemetry_sender.cpp:36-76 | bytes outside every mapping keep their value |
| `ByteRoutes.CommandBytesReachTelemetry` | application/GpcTelemetrySender/gpc_telemetry_sender.cpp:36-76 | a command's bytes, extracted to distinct slots and mapped to non-overlapping offsets, arrive unchanged |
| `ByteRoutes.ExtractionSucceedsIff` | application/BluewhiteMessageHandler/bluewhite_message_handler.cpp:12-32 | extraction succeeds iff every field has 1 to 8 bytes, lies inside the payload and goes to an existing slot |
| `ByteRoutes.ExtractionStops` | application/BluewhiteMessageHandler/bluewhite_message_handler.cpp:12-32 | at a bad field it stops, with the fields before it stored and no other |
| `ByteRoutes.LastMappingWins` | application/GpcTelemetrySender/gpc_telemetry_sender.cpp:36-76 | for any mappings, overlapping ones included, a byte is the one the last fitting mapping of 1, 2, 4 or 8 bytes takes from its slot, 0 without such a slot |
| `ByteRoutes.UnsentByte` | application/GpcTelemetrySender/gpc_telemetry_sender.cpp:36-76 | and keeps its value when no such mapping covers it |
| `SequenceRecorder.ValidateConditionBlocks` | tools/gpc_sequence_recorder/gpc_recorder/validate.py:50-70 | the loop accepts iff no condition is open and the list is a row of steps and complete blocks |
| `SequenceRecorder.AcceptsExactlyParts` | tools/gpc_sequence_recorder/gpc_recorder/validate.py:50-70 | accepted iff the list is made of top-level steps and blocks with as many body steps as their IF says |
| `SequenceRecorder.SpreadIsAccepted` | tools/gpc_sequence_recorder/gpc_recorder/validate.py:50-70 | every row of steps and complete blocks is accepted, and read back as that row |
| `SequenceRecorder.AcceptsExactlyFlattenings` | tools/gpc_sequence_recorder/gpc_recorder/validate.py:50-70 | without an IF inside an IF body, exactly the flat forms of structured programs are accepted |
| `SequenceRecorder.NestedCountIsNotChecked` | tools/gpc_sequence_recorder/gpc_recorder/validate.py:50-70 | an accepted list whose inner IF claims steps that do not exist |
| `SequenceRecorder.StepsToCommands` | tools/gpc_sequence_recorder/gpc_recorder/graph_api.py:94-118 | the two nested loops print the recursive specification, for any list, also when an IF claims more steps than there are |
| `SequenceRecorder.PrintedParts` | tools/gpc_sequence_recorder/gpc_recorder/graph_api.py:94-118 | on an accepted list, printing goes part by part |
| `SequenceRecorder.BracketsMissNestedIfs` | tools/gpc_sequence_recorder/gpc_recorder/graph_api.py:94-118 | opening brackets outnumber closing ones by exactly the number of nested IFs |
| `SequenceRecorder.RecordingsAreSegmented` | tools/gpc_sequence_recorder/gpc_recorder/dsl/builtins.py:632-653 | at any time in a recording, what lies between open conditions is well nested |
| `SequenceRecorder.RecordingsHaveThirtySteps` | tools/gpc_sequence_recorder/gpc_recorder/dsl/builtins.py:632-653 | no recording has more than 30 steps |
| `SequenceRecorder.CommandIsRefusedIff` | tools/gpc_sequence_recorder/gpc_recorder/dsl/builtins.py:371-402 | a step or condition is refused iff 30 are there, an end mark iff no condition is open |
| `SequenceRecorder.RecordedIsStructured` | tools/gpc_sequence_recorder/gpc_recorder/dsl/builtins.py:371-402 | whatever is recorded with all conditions closed passes the check and is the flat form of a structured program |
| `SequenceRecorder.PrintedListIsRecoveredIff` | tools/gpc_sequence_recorder/gpc_recorder/graph_api.py:94-118 | printing an accepted list and recording the commands gives the list back iff it holds no NOP, receive or unknown step, and no IF or end mark inside a body |

## Left out

- Registers, DMA, ADC conversion, PWM timers, USB descriptors and start-up code: foreign calls, seen as an oracle of answers. The conversion of an ADC voltage to millivolts is the oracle's, because rounding is not the point.
- ProgrammerSession: the session timeout, after which the bootloader writes a pending word by itself and leaves the session, is not modelled; a device that stops is a channel that delivers nothing more.
- Bootloader: states other than programming in progress, the restart and checksum commands and the one-command mailbox (an overwritten command is one the channel lost).
- FlashErase.EraseFlash: ranges outside the flash or with 32-bit overflow are excluded, as the callers only pass the regions of the memory map; metadata writers are not modelled.
- CanMessenger.CanMessengerObject.ProcessQueueFromTick: interrupts inside a re-insertion, a recovery, or between the driver's test of its state and the hardware's answer are not modelled (see "Modelling decisions").
- CanMessenger.CanMessengerObject.EnqueueTxMessage: for 9 to 64 bytes the object stays as it is, while the source copies past the queue item and enqueues it; what memory then holds is undefined.
- CanMessengerObject: statistics counters, the receive queue's enqueue functions (the queue itself is the same `Ring`).
- CommCan: filters, receive FIFO copying and the peripheral's deinitialisation.
- PriorityOrder.FirstInFirstOut: a retried frame counts as a new arrival in its new priority class.
- executeImmediateOp: one operation run at once when nothing is running; the step itself is `ExecuteStep`.
- tryStartSequenceForMessage: choosing the command binding and starting its sequence adds only a lookup to what `ExtractCommandFields` states.
- StepsToCommands: a negative `step_count` in a hand-edited list is not modelled; counts are natural numbers. Field formatting of a command is left to the converter.
- BluelinkPacketLog: checksum labels and the text formatters, which do not affect framing.
- IF body counts and indices are unbounded naturals: with at most 30 steps and 8-bit counts the source's promoted sums do not overflow.
- The web recorder, FastAPI server, USB bridge, command-line parsing, LED patterns and schedulers: no hard logic.
