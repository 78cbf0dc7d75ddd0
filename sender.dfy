/**
 * The sender of libARNetwork as objects updated in place: the input
 * buffers (netWork_inOutBuffer_t), the staging buffer, and the sender that
 * owns a table of input buffers and runs the sending ticks.  Each
 * state-changing method is proved against the functions of module Schedule.
 */
module Sender {
  import opened Schedule
  import TickProperties

  /** SENDER_SLEEP_TIME_MS: the pause the sending thread takes before each tick. */
  const SenderSleepTimeMs: int := 1

  /** The value the sending thread's local counter seq starts from. */
  const InitialSeq: int := 0

  /** One input buffer: a ring of pending cells and its acknowledgement state. */
  class InOutBuffer {
    var id: int
    var needAck: bool
    var sendingWaitTime: int
    var buffSize: nat
    var buffCellSize: nat
    var ring: seq<Cell>
    var isWaitAck: bool
    var seqWaitAck: int
    var waitTimeCount: int

    /** The buffer's whole state as a value. */
    function Value(): Stream
      reads this
    {
      Stream(id, needAck, sendingWaitTime, buffSize, buffCellSize, ring, isWaitAck, seqWaitAck, waitTimeCount)
    }

    /** newInOutBuffer: an empty buffer built from one parameter group. */
    constructor (p: BufferParam)
      ensures Value() == Initial(p)
    {
      id := p.id;
      needAck := p.needAck;
      sendingWaitTime := p.sendingWaitTime;
      buffSize := p.buffSize;
      buffCellSize := p.buffCellSize;
      ring := [];
      isWaitAck := false;
      seqWaitAck := 0;
      waitTimeCount := 0;
    }

    /**
     * inOutBufferTransmitAck, whose body is not part of this model: the
     * acknowledgement state it leaves is given as wait and seqWait.
     */
    method TakeAck(wait: bool, seqWait: int)
      modifies this`isWaitAck, this`seqWaitAck
      ensures isWaitAck == wait && seqWaitAck == seqWait
    {
      isWaitAck := wait;
      seqWaitAck := seqWait;
    }

    /** ringBuffPopFront: drops the front cell, if there is one. */
    method PopFront()
      modifies this`ring
      ensures ring == Schedule.PopFront(old(ring))
    {
      if ring != [] {
        ring := ring[1..];
      }
    }
  }

  /** The staging ("sending") buffer: its size and its write offset pFront. */
  class SendingBuffer {
    var capacity: nat
    var used: nat

    function Value(): Staging
      reads this
    {
      Staging(capacity, used)
    }

    /** newBuffer(size, 1): size one-byte cells, nothing written yet. */
    constructor (size: nat)
      ensures Value() == Staging(size, 0)
    {
      capacity := size;
      used := 0;
    }
  }

  /** The values of a table of input buffers, slot by slot. */
  ghost function Values(bs: seq<InOutBuffer>): (ss: seq<Stream>)
    reads bs
    ensures |ss| == |bs|
  {
    if bs == [] then [] else Values(bs[..|bs| - 1]) + [bs[|bs| - 1].Value()]
  }

  /** Slot j of the values is the value of the buffer in slot j. */
  lemma {:induction false} ValuesAt(bs: seq<InOutBuffer>)
    ensures forall j :: 0 <= j < |bs| ==> Values(bs)[j] == bs[j].Value()
  {
    if bs != [] {
      ValuesAt(bs[..|bs| - 1]);
    }
  }

  /** netWork_Sender_t. */
  class Sender {
    var isAlive: bool
    var sleepTime: int
    const inputBufferNum: nat
    const inputBuffers: array<InOutBuffer?>
    var sendingBuffer: SendingBuffer?
    ghost const Table: seq<InOutBuffer>  // the buffers the table points to, slot by slot

    /**
     * A sender as newSender leaves it: one distinct input buffer in every
     * slot of the table, and a staging buffer written no further than its
     * size.
     */
    ghost predicate Valid()
      reads this, inputBuffers, sendingBuffer
    {
      && inputBuffers.Length == inputBufferNum == |Table|
      && (forall j :: 0 <= j < |Table| ==> inputBuffers[j] == Table[j])
      && (forall j, k :: 0 <= j < k < |Table| ==> Table[j] != Table[k])
      && sendingBuffer != null
      && sendingBuffer.used <= sendingBuffer.capacity
    }

    /** The input buffers' values, in slot order. */
    ghost function Streams(): seq<Stream>
      reads Table
    {
      Values(Table)
    }

    constructor (n: nat, table: array<InOutBuffer?>, staging: SendingBuffer,
                 ghost slots: seq<InOutBuffer>)
      ensures isAlive && sleepTime == SenderSleepTimeMs && inputBufferNum == n
      ensures inputBuffers == table && sendingBuffer == staging && Table == slots
    {
      isAlive := true;
      sleepTime := SenderSleepTimeMs;
      inputBufferNum := n;
      inputBuffers := table;
      sendingBuffer := staging;
      Table := slots;
    }

    /**
     * senderAddToBuffer: stages the front cell of b when the staging buffer
     * has room for a whole cell; reports whether it did.  The sequence
     * number is not used.
     */
    method AddToBuffer(b: InOutBuffer, seqNum: int) returns (added: bool)
      requires sendingBuffer != null
      modifies sendingBuffer
      ensures Added(added, sendingBuffer.Value()) == TryStage(old(sendingBuffer.Value()), b.Value())
    {
      added := false;
      if sendingBuffer.capacity - sendingBuffer.used >= b.buffCellSize {
        added := b.ring != [];  // ringBuffFront fails only on an empty ring
        if added {
          sendingBuffer.used := sendingBuffer.used + b.buffCellSize;
        }
      }
    }

    /**
     * One buffer's turn in a tick of runSendingThread: stage its front cell
     * when it is non-empty, not waiting for an acknowledgement and not
     * counting down; otherwise count down.  q is the counter before the
     * turn and q' after it.
     */
    method VisitBuffer(b: InOutBuffer, q: int) returns (q': int)
      requires sendingBuffer != null
      modifies b, sendingBuffer
      ensures Visited(b.Value(), sendingBuffer.Value(), q')
              == Visit(old(b.Value()), old(sendingBuffer.Value()), q)
    {
      q' := q;
      if b.ring != [] && !b.isWaitAck && b.waitTimeCount == 0 {
        var added := AddToBuffer(b, q);
        if added {
          if b.needAck {
            b.isWaitAck := true;
            b.seqWaitAck := q;
          } else {
            b.PopFront();
          }
          q' := q + 1;
        }
      } else if b.waitTimeCount != 0 {
        b.waitTimeCount := b.waitTimeCount - 1;
      }
    }

    /**
     * The turn of the buffer in slot i: only that buffer and the staging
     * buffer change.
     */
    method VisitSlot(i: nat, q: int) returns (q': int)
      requires Valid() && i < inputBufferNum
      modifies Table, sendingBuffer
      ensures Valid()
      ensures var v := Visit(old(Streams())[i], old(sendingBuffer.Value()), q);
        && Streams() == old(Streams())[i := v.stream]
        && sendingBuffer.Value() == v.staging
        && q' == v.counter
    {
      var b := inputBuffers[i];
      ValuesAt(Table);
      label before:
      q' := VisitBuffer(b, q);
      forall j | 0 <= j < inputBufferNum && j != i
        ensures Table[j].Value() == old@before(Table[j].Value())
      {
        assert Table[j] != b;
      }
      ValuesAt(Table);
    }

    /**
     * The state a tick of ss, started on staging buffer st with counter
     * seq0, has reached after the slots before i, with counter q: those
     * slots are as the tick leaves them and the others still as in ss.
     */
    ghost predicate Reached(ss: seq<Stream>, st: Staging, seq0: int, i: nat, q: int)
      reads this, inputBuffers, Table, sendingBuffer
    {
      && Valid() && i <= inputBufferNum == |ss|
      && var mid := RunTick(ss[..i], st, seq0);
         && Streams() == mid.streams + ss[i..]
         && sendingBuffer.Value() == mid.staging && q == mid.counter
    }

    /** One iteration of the loop of runSendingThread over the table: the turn of slot i. */
    method TickStep(ghost ss: seq<Stream>, ghost st: Staging, ghost seq0: int, i: nat, q: int)
      returns (q': int)
      requires Reached(ss, st, seq0, i, q) && i < inputBufferNum
      modifies Table, sendingBuffer
      ensures sendingBuffer == old(sendingBuffer)
      ensures Reached(ss, st, seq0, i + 1, q')
    {
      TickProperties.RunTickStep(ss, st, seq0, i);
      q' := VisitSlot(i, q);
    }

    /** Before the first turn of a tick, nothing has changed. */
    lemma ReachedStart(seq0: int)
      requires Valid()
      ensures Reached(Streams(), sendingBuffer.Value(), seq0, 0, seq0)
    {
      var ss := Streams();
      assert ss[..0] == [] && ss[0..] == ss;
    }

    /** After the last turn, the tick is complete. */
    lemma ReachedEnd(ss: seq<Stream>, st: Staging, seq0: int, q: int)
      requires Reached(ss, st, seq0, inputBufferNum, q)
      ensures Valid()
      ensures TickState(Streams(), sendingBuffer.Value(), q) == RunTick(ss, st, seq0)
    {
      assert ss[..inputBufferNum] == ss && ss[inputBufferNum..] == [];
    }

    /**
     * One tick of runSendingThread: every input buffer, in slot order, is
     * staged, counted down or left alone.  seq0 is the thread's counter
     * before the tick and seq1 after it.
     */
    method Tick(seq0: int) returns (seq1: int)
      requires Valid()
      modifies Table, sendingBuffer
      ensures Valid()
      ensures TickState(Streams(), sendingBuffer.Value(), seq1)
              == RunTick(old(Streams()), old(sendingBuffer.Value()), seq0)
    {
      ghost var ss := Streams();
      ghost var st := sendingBuffer.Value();
      var i := 0;
      seq1 := seq0;
      ReachedStart(seq0);
      while i < inputBufferNum
        invariant sendingBuffer == old(sendingBuffer)
        invariant Reached(ss, st, seq0, i, seq1)
      {
        seq1 := TickStep(ss, st, seq0, i, seq1);
        i := i + 1;
      }
      ReachedEnd(ss, st, seq0, seq1);
    }

    /**
     * runSendingThread, for at most ticks iterations of its loop: the
     * counter starts at InitialSeq and each iteration is one Tick, as long as
     * isAlive holds.  Only stopSender, from another thread, clears isAlive,
     * so a sender that is alive runs all ticks and one that is not runs none.
     */
    method RunSendingThread(ticks: nat) returns (counter: int)
      requires Valid()
      modifies Table, sendingBuffer
      ensures Valid()
      ensures TickState(Streams(), sendingBuffer.Value(), counter)
              == RunTicks(old(Streams()), old(sendingBuffer.Value()), InitialSeq, if isAlive then ticks else 0)
    {
      ghost var ss := Streams();
      ghost var st := sendingBuffer.Value();
      counter := InitialSeq;
      var k := 0;
      while isAlive && k < ticks
        invariant 0 <= k <= ticks
        invariant !isAlive ==> k == 0
        invariant Valid()
        invariant RunTicks(Streams(), sendingBuffer.Value(), counter, (if isAlive then ticks else 0) - k)
                  == RunTicks(ss, st, InitialSeq, if isAlive then ticks else 0)
      {
        counter := Tick(counter);
        k := k + 1;
      }
    }

    /** stopSender: clears the flag the sending thread's loop tests before every tick. */
    method Stop()
      modifies this`isAlive
      ensures !isAlive
    {
      isAlive := false;
    }

    /**
     * senderTransmitAck: the first input buffer whose id is id is handed
     * seqNum by inOutBufferTransmitAck, which leaves its acknowledgement
     * state as wait and seqWait, and then loses its front cell.
     */
    method TransmitAck(id: int, seqNum: int, wait: bool, seqWait: int)
      requires Valid()
      modifies Table
      ensures Valid()
      ensures Streams() == AckPop(old(Streams()), id, wait, seqWait)
    {
      // inOutBufferWithId: the first slot whose buffer has the id
      ValuesAt(Table);
      var k := 0;
      while k < inputBufferNum && inputBuffers[k].id != id
        invariant 0 <= k <= inputBufferNum
        invariant forall j :: 0 <= j < k ==> Streams()[j].id != id
      {
        k := k + 1;
      }
      assert k < inputBufferNum <==> FirstWithId(Streams(), id) == Some(k);
      if k < inputBufferNum {
        AckSlot(k, wait, seqWait);
      }
    }

    /**
     * The body of senderTransmitAck once the buffer in slot k is found:
     * only that buffer changes, as Acked has it.
     */
    method AckSlot(k: nat, wait: bool, seqWait: int)
      requires Valid() && k < inputBufferNum
      modifies Table
      ensures Valid()
      ensures Streams() == old(Streams())[k := Acked(old(Streams())[k], wait, seqWait)]
    {
      var b := inputBuffers[k];
      ValuesAt(Table);
      label before:
      b.TakeAck(wait, seqWait);
      b.PopFront();
      forall j | 0 <= j < inputBufferNum && j != k
        ensures Table[j].Value() == old@before(Table[j].Value())
      {
        assert Table[j] != b;
      }
      ValuesAt(Table);
    }
  }

  /**
   * newSender.  The three flags are the outcomes of the allocations it makes
   * (the sender, its table of input buffers, its staging buffer); any
   * failure yields null.  Parameter group k lands in slot inputBufferNum-1-k.
   * A failure releases only what was built, as Teardown.CleanupFields has it.
   */
  method NewSender(sendingBufferSize: nat, inputBufferNum: nat, params: seq<BufferParam>,
                   senderAllocated: bool, tableAllocated: bool, stagingAllocated: bool)
    returns (s: Sender?)
    requires |params| == inputBufferNum
    ensures s != null <==> senderAllocated && tableAllocated && stagingAllocated
    ensures s != null ==>
      && fresh(s) && fresh(s.inputBuffers) && fresh(s.Table) && fresh(s.sendingBuffer)
      && s.Valid()
      && s.isAlive && s.sleepTime == SenderSleepTimeMs
      && s.inputBufferNum == inputBufferNum
      && s.sendingBuffer.Value() == Staging(sendingBufferSize, 0)
      && s.Streams() == Layout(params)
  {
    if !senderAllocated || !tableAllocated {
      // deleteSender releases what was built and the caller gets null
      return null;
    }
    var table, slots := NewTable(params);
    if !stagingAllocated {
      return null;
    }
    var staging := new SendingBuffer(sendingBufferSize);
    s := new Sender(inputBufferNum, table, staging, slots);
  }

  /**
   * newSender's loop over the parameter groups: a fresh table holding a
   * fresh, distinct input buffer in every slot, laid out as Layout has it.
   */
  method NewTable(params: seq<BufferParam>) returns (table: array<InOutBuffer?>, ghost slots: seq<InOutBuffer>)
    ensures fresh(table) && table.Length == |slots| == |params|
    ensures forall j :: 0 <= j < |slots| ==> table[j] == slots[j] && fresh(slots[j])
    ensures forall j, k :: 0 <= j < k < |slots| ==> slots[j] != slots[k]
    ensures Values(slots) == Layout(params)
  {
    var n := |params|;
    table := new InOutBuffer?[n];
    var i := n;
    while i != 0
      invariant 0 <= i <= n
      invariant forall j :: i <= j < n ==>
        table[j] != null && fresh(table[j]) && table[j].Value() == Layout(params)[j]
      invariant forall j, k :: i <= j < k < n ==> table[j] != table[k]
      decreases i
    {
      // the (n - i)-th group is read while slot i - 1 is filled
      var b := new InOutBuffer(params[n - i]);
      TickProperties.LayoutAt(params, n - i);
      table[i - 1] := b;
      i := i - 1;
    }
    slots := seq(n, j requires 0 <= j < n && table[j] != null reads table => table[j] as InOutBuffer);
    ValuesAt(slots);
  }

  /** A caller's handle on a sender: the pointer deleteSender receives by address. */
  class SenderHandle {
    var sender: Sender?

    constructor (s: Sender?)
      ensures sender == s
    {
      sender := s;
    }
  }

  /**
   * deleteSender: releases every input buffer (last slot first, each slot
   * nulled), then the staging buffer, and nulls the caller's handle.  A null
   * handle is left alone; a handle on null is only nulled again.
   */
  method DeleteSender(handle: SenderHandle?)
    requires handle != null && handle.sender != null ==>
               handle.sender.inputBuffers.Length == handle.sender.inputBufferNum
    modifies handle
    modifies if handle != null && handle.sender != null
             then {handle.sender, handle.sender.inputBuffers} else {}
    ensures handle != null ==> handle.sender == null
    ensures handle != null && old(handle.sender) != null ==>
      var s := old(handle.sender);
      && s.sendingBuffer == null
      && forall j :: 0 <= j < s.inputBuffers.Length ==> s.inputBuffers[j] == null
  {
    if handle != null {
      var s := handle.sender;
      if s != null {
        var i := s.inputBufferNum;
        while i != 0
          invariant 0 <= i <= s.inputBufferNum
          invariant forall j :: i <= j < s.inputBuffers.Length ==> s.inputBuffers[j] == null
          modifies s.inputBuffers
          decreases i
        {
          s.inputBuffers[i - 1] := null;  // deleteInOutBuffer nulls the slot
          i := i - 1;
        }
        s.sendingBuffer := null;  // deleteBuffer nulls the field
      }
      handle.sender := null;
    }
  }
}
