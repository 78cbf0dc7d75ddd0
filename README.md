# libARNetwork sender: the send scheduler, in Dafny

This project models the sender of libARNetwork (`Sources/sender.c`). The
sender owns a table of input buffers, one per outgoing stream. Each buffer
has:

- a ring of pending cells;
- a `needAck` flag;
- the acknowledgement state `isWaitAck` and `seqWaitAck`;
- a `waitTimeCount` countdown.

The sender also owns one staging ("sending") buffer. Its sending thread
runs ticks. In one tick, every input buffer is visited in slot order, and
each visited buffer does one of three things:

- its front cell is copied into the staging buffer, if the ring is
  non-empty, the buffer is not waiting for an acknowledgement and its
  countdown is zero;
- its countdown is decremented, if the countdown is non-zero;
- nothing happens.

After a successful staging, a buffer that needs an acknowledgement starts
waiting for the current value of the thread's sequence counter. Any other
buffer drops its front cell. In both cases the counter, which all buffers
share, is incremented.

Files:

- `schedule.dfy` (module `Schedule`) is the value-level specification:
  - `Stream` is an input buffer's state: its parameters, its ring and its
    acknowledgement and countdown state.
  - `Staging` is the staging buffer's size and write offset.
  - `Visit` is one buffer's turn.
  - `RunTick` is one tick; `RunTicks` is n ticks.
  - `TryStage` is `senderAddToBuffer`.
  - `FirstWithId` and `AckPop` are `senderTransmitAck`.
  - `Layout` is the table `newSender` builds.
- `tick_properties.dfy` (module `TickProperties`) proves what a tick and a
  run of ticks guarantee.
- `sender.dfy` (module `Sender`) holds the objects updated in place:
  - `InOutBuffer`, `SendingBuffer` and `Sender` are classes.
  - `Sender.Tick` is a loop over the table, proved against `RunTick`.
  - `Sender.RunSendingThread` is the thread's loop of ticks, proved
    against `RunTicks`.
  - `NewSender` and `DeleteSender` fill and clear the table in
    count-down loops; `NewTable` is `newSender`'s loop.
  - Each sender keeps, as a ghost constant, the sequence of buffers its
    table points to. The methods that change buffers name that sequence in
    their `modifies` clause, so no other buffer can change.
- `teardown.dfy` (module `Teardown`) models `newSender`'s error path (see
  Findings).

The model follows the code as written:

- The sequence counter is one local of the sending thread, shared by all
  buffers (`sender.c:160`, `194`). It is not a per-stream counter.
- Staging does not restart a buffer's countdown. Nothing in `sender.c`
  sets `waitTimeCount` except the decrement.
- Staging does not drain anything. `senderSend` is documented as sending
  the data (`sender.c:27-33`) but its body is empty (`sender.c:222-225`).

## Model

| member | source | states |
|---|---|---|
| `Schedule.PopFront` | Sources/sender.c:191 | Popping a non-empty ring removes exactly its front cell and keeps the rest in order. An empty ring stays empty. |
| `Schedule.TryStage` | Sources/sender.c:227-242 | Staging succeeds exactly when the front cell exists and the free cells are at least the buffer's cell size. On success the free space shrinks by exactly the cell size. On failure the staging buffer is unchanged. The capacity never changes, and a staging buffer within its size stays within it. |
| `Schedule.Visit` | Sources/sender.c:175-200 | One buffer's turn advances the counter by one exactly when it stages the buffer. It stages only when the staging buffer has room for the cell, and then the free space shrinks by the cell size. A ready buffer left unstaged is untouched, and there was no room. The countdown drops by one when non-zero. The buffer's id, need-ack flag, cell size, wait time and size never change. The staging capacity never changes. |
| `Schedule.RunTick` | Sources/sender.c:171-201 | One tick visits every buffer in slot order and yields one buffer per slot. Its effects are stated by the lemmas below. |
| `Schedule.RunTicks` | Sources/sender.c:165-205 | Successive ticks carry the buffers, the staging buffer and the counter from one tick to the next. The result has one buffer per slot. |
| `Schedule.FirstWithId` | Sources/sender.c:246-247 | The lookup by id returns the first slot whose buffer has that id. It returns nothing exactly when no buffer has that id. |
| `Schedule.AckPop` | Sources/sender.c:244-253 | An acknowledgement changes no buffer when no id matches. Otherwise the first buffer with that id takes the acknowledgement state that `inOutBufferTransmitAck` leaves and loses its front cell, and every other slot is unchanged. Any changed slot had that id, and only its ring (by one pop) and its acknowledgement state changed. |
| `Schedule.Initial` | Sources/sender.c:88-95 | A buffer built from a parameter group carries that group's id, need-ack flag, cell size, wait time and size. It is empty and not waiting. Its turn in a tick leaves it unchanged and does not move the counter or the staging buffer. |
| `Schedule.Layout` | Sources/sender.c:85-96 | The table built from n parameter groups has n slots. |
| `TickProperties.VisitOutcome` | Sources/sender.c:175-200 | What one buffer's turn does to the buffer and the write offset. Staged: the write offset advances by the cell size, and the buffer either waits for the old counter value (need-ack) or loses its front cell. Not staged: the staging buffer is unchanged and only the countdown moves. |
| `TickProperties.RunTickPrefix` | Sources/sender.c:171-201 | The buffers visited first end up as a tick over them alone would leave them. The staging buffer only fills up as the tick proceeds. |
| `TickProperties.RunTickAt` | Sources/sender.c:171-201 | Buffer i's turn sees the staging buffer and the counter that the buffers before it left. |
| `TickProperties.RunTickStep` | Sources/sender.c:171-201 | One loop iteration of the tick turns the state after slots 0..i-1 into the state after slot i. |
| `TickProperties.TickCounts` | Sources/sender.c:182-195 | Over a tick, the shared counter grows by exactly the number of staged buffers. The write offset grows by exactly the staged cells' sizes. The capacity is unchanged. |
| `TickProperties.TickCountsDown` | Sources/sender.c:197-199 | Every buffer's countdown drops by exactly one when non-zero and is kept when zero. This includes empty buffers and buffers waiting for an acknowledgement. |
| `TickProperties.TickUnstaged` | Sources/sender.c:175-200 | An empty, waiting or counting-down buffer is not staged, and only its countdown moves. A ready buffer that is not staged is left untouched, and at the end of the tick the staging buffer has fewer free cells than that buffer's cell size. |
| `TickProperties.TickStaged` | Sources/sender.c:184-192 | A staged need-ack buffer keeps its ring, sets `isWaitAck`, and records as `seqWaitAck` the counter value at its turn (the tick's start value plus the stagings before it). A staged buffer without need-ack loses exactly its front cell, and its acknowledgement state is unchanged. |
| `TickProperties.StagedCountPrefixes` | Sources/sender.c:194 | Stagings counted over a longer prefix of the table include those over a shorter one. |
| `TickProperties.TickSequenceNumbers` | Sources/sender.c:160-194 | The sequence numbers a tick hands out lie between the counter's values before and after the tick. They grow strictly with the slot index, so no two buffers of one tick wait for the same number. |
| `TickProperties.CountdownsStayNonNegative` | Sources/sender.c:197-199 | Countdowns that start non-negative stay non-negative over any number of ticks. |
| `TickProperties.WaitingNeverRestaged` | Sources/sender.c:175-186 | A buffer waiting for an acknowledgement keeps waiting for the same sequence number, with the same cells, over any number of ticks. Its one cell in flight is neither popped nor staged again. |
| `TickProperties.AckReenablesStaging` | Sources/sender.c:244-253 | An acknowledgement that clears a need-ack buffer's wait, when the buffer has another cell pending and no countdown, lets the next tick stage that cell. The buffer then waits again and keeps the cells left after the pop, unless the tick ends without room for the cell. |
| `TickProperties.StaleAckDropsUnsentCell` | Sources/sender.c:248-251 | An acknowledgement that reaches a need-ack buffer which is not waiting still pops its front cell. A turn stages such a buffer's cell only by making it wait, so the popped cell was never staged. |
| `TickProperties.LayoutAt` | Sources/sender.c:85-95 | Slot n-1-k of the new table holds the buffer built from the k-th parameter group. |
| `TickProperties.LayoutLookupFindsLastDeclared` | Sources/sender.c:85-95 | In a freshly built table, the lookup by id finds the parameter group declared last with that id: earlier groups with the same id are shadowed. It finds nothing exactly when no group has the id. |
| `Sender.InOutBuffer.constructor` | Sources/sender.c:88-95 | A new input buffer carries its parameter group's id, need-ack flag and cell size. It is empty, not waiting, and has no countdown. |
| `Sender.InOutBuffer.TakeAck` | Sources/sender.c:250 | The buffer's acknowledgement state becomes the one `inOutBufferTransmitAck` leaves. Nothing else in the buffer changes. |
| `Sender.InOutBuffer.PopFront` | Sources/sender.c:191 | The ring loses its front cell. Nothing else in the buffer changes. |
| `Sender.SendingBuffer.constructor` | Sources/sender.c:108 | The staging buffer has the requested size and nothing written. |
| `Sender.Sender.constructor` | Sources/sender.c:75-78 | A new sender is alive, has a sleep time of `SENDER_SLEEP_TIME_MS`, and has the given buffer count. |
| `Sender.Sender.AddToBuffer` | Sources/sender.c:227-242 | Updates the staging buffer exactly as `TryStage` says, and reports success. |
| `Sender.Sender.VisitBuffer` | Sources/sender.c:173-200 | Updates one buffer, the staging buffer and the counter exactly as `Visit` says. |
| `Sender.Sender.VisitSlot` | Sources/sender.c:173-200 | Slot i's turn changes only that slot's buffer, as `Visit` says, and the staging buffer. Every field of every other buffer is unchanged. |
| `Sender.Sender.Tick` | Sources/sender.c:171-201 | The loop leaves every field of every buffer, the staging buffer and the counter exactly as `RunTick` says. The sender stays well-formed, and only the table's buffers and the staging buffer may change. |
| `Sender.Sender.RunSendingThread` | Sources/sender.c:158-205 | The counter starts at 0. An alive sender's buffers, staging buffer and counter end as `RunTicks` says after the given number of ticks. A stopped sender changes nothing. |
| `Sender.Sender.Stop` | Sources/sender.c:217-220 | Clears `isAlive`, the thread loop's guard. |
| `Sender.Sender.AckSlot` | Sources/sender.c:248-252 | The found buffer takes the acknowledgement state `inOutBufferTransmitAck` leaves and loses its front cell. Every field of every other buffer is unchanged. |
| `Sender.Sender.TransmitAck` | Sources/sender.c:244-253 | The loop finds the first slot with the id. Every field of every buffer changes exactly as `AckPop` says, given the acknowledgement state `inOutBufferTransmitAck` leaves. |
| `Sender.NewSender` | Sources/sender.c:60-124 | Returns null exactly when one of the three allocations fails. Otherwise the sender, its table, its buffers and its staging buffer are fresh, and the sender is well-formed, alive, has a sleep time of 1 and an empty staging buffer of the given size, and its table is `Layout(params)`. |
| `Sender.NewTable` | Sources/sender.c:80-97 | The table is fresh and has one slot per parameter group. Every slot holds a fresh buffer, no buffer sits in two slots, and the buffers' values are `Layout(params)`. |
| `Sender.DeleteSender` | Sources/sender.c:126-155 | A non-null handle always ends null. A live sender has every slot nulled and its staging pointer nulled. A null handle is left alone. |
| `Teardown.CleanupFieldsAsWritten` | Sources/sender.c:67-118 | As written, `deleteSender` is called exactly when an allocation fails. The table pointer is live exactly when its allocation succeeded. The staging pointer is never live, and it is unassigned exactly when the table allocation failed. |
| `Teardown.AsWrittenReleasesUnassignedStaging` | Sources/sender.c:67-118 | When the table allocation fails, the code as written hands `deleteSender` a sender whose staging pointer was never assigned. |
| `Teardown.CleanupFields` | Sources/sender.c:116-155 | With the staging pointer set to NULL up front, every failed construction hands `deleteSender` only assigned pointers. The table pointer is live exactly when its allocation succeeded. |

## Left out

- The thread loop is not modelled as a concurrent construct (`sender.c:165-169`). This covers `usleep` and `sal_print`. `RunSendingThread` runs the `while (isAlive)` loop for a given number of ticks, since nothing in the thread itself ends it. `Tick` is one iteration. `isAlive` is a plain field, and a `stopSender` from another thread during the run is not modelled. `SENDER_SLEEP_TIME_MS` is passed to `usleep`, which counts microseconds; sleeping is not modelled.
- No locking is modelled. The unlocked read of `isWaitAck` and any other interleaving with producer threads are concurrency concerns.
- `senderSend` is an empty function, so nothing in this file drains the staging buffer. The model keeps that: once the staging buffer is full, ready buffers are left untouched (`TickUnstaged`).
- `Schedule.TryStage`: the bytes of staged cells are not modelled, only the write offset. The source passes the staging buffer's descriptor `pSendingBuffer`, not its write position, as the destination of `ringBuffFront` (`sender.c:233`), and then advances that descriptor's `pFront` (`sender.c:237`). `ringBuffFront` is not part of this model. The model assumes the copy leaves the descriptor's size and write offset untouched; the claim that the free space shrinks by exactly the cell size rests on that assumption.
- The ring buffer functions are not part of this model: `ringBuffIsEmpty`, `ringBuffFront`, `ringBuffPopFront` and `bufferGetFreeCellNb`. The ring is a sequence of cells. Pop drops the head of a non-empty ring. The free cells are size minus write offset. `ringBuffFront` fails only on an empty ring.
- The internals of `newInOutBuffer` are not part of this model. A new buffer is taken to be empty, not waiting, with `seqWaitAck` 0 and countdown 0. The source does not check its result for NULL (`sender.c:95`), and the model always builds each buffer.
- The internals of `inOutBufferWithId` are not part of this model. The lookup is taken to return the first match in slot order.
- `Sender.Sender.TransmitAck`: the body of `inOutBufferTransmitAck` is not part of this model, so the acknowledgement state it leaves (`isWaitAck`, `seqWaitAck`) is a parameter, `wait` and `seqWait`, and how it depends on `seqNum` is not modelled. `Schedule.AckPop` takes the same two parameters.
- The internals of `deleteInOutBuffer` and `deleteBuffer` are not part of this model. Each is taken to null the pointer it is given, as `deleteSender` does. The memory release itself is not modelled.
- `malloc` failures are boolean parameters of `NewSender`. In its failure paths `NewSender` returns null and does not build the half-finished sender that `deleteSender` would release.
- The `va_arg` groups are a sequence of `BufferParam` records. `va_start` is given a local variable instead of the last named parameter (`sender.c:84`); that is undefined behaviour, and the model assumes the groups are read in order.
- The counter `seq` and `seqWaitAck` are C `int`s but unbounded in the model. Overflow after 2^31-1 stagings is not modelled.
- `senderAddToBuffer` ignores its `seqNum` argument, and so does `Sender.Sender.AddToBuffer`.
- `JNI/c/ARNETWORK_JNIManager.c` is not part of this model. It is a foreign-language binding over manager functions that are not shown.

## Findings

| source | as written | input that shows it | evidently intended | confidence | as-written member | corrected member |
|---|---|---|---|---|---|---|
| Sources/sender.c:67-118 | `pSender` comes from `malloc` and `pSendingBuffer` is assigned only after the table is filled. If the table allocation fails, `deleteSender(&pSender)` passes the unassigned `pSendingBuffer` to `deleteBuffer`. | sender allocated, table allocation fails | Set `pSendingBuffer` to NULL before anything can fail, so cleanup releases only what was built. | high; not executed | `Teardown.AsWrittenReleasesUnassignedStaging` | `Teardown.CleanupFields` |
