/**
 * Value-level specification of the send scheduler of libARNetwork's sender:
 * what one tick of the sending thread does to the input buffers, to the
 * staging ("sending") buffer and to the sequence counter shared by all
 * buffers.  The imperative classes in module Sender are proved against
 * these functions; module TickProperties proves what they promise.
 */
module Schedule {

  datatype Option<T> = None | Some(value: T)

  /** One cell of an input buffer's ring: buffCellSize bytes of user data. */
  type Cell = seq<bv8>

  /** What the send loop sees of one input buffer (netWork_inOutBuffer_t). */
  datatype Stream = Stream(
    id: int,
    needAck: bool,
    sendingWaitTime: int,
    buffSize: nat,
    cellSize: nat,
    ring: seq<Cell>,      // pending cells, front first
    isWaitAck: bool,
    seqWaitAck: int,
    waitTimeCount: int)

  /** The staging buffer: its size in bytes and the offset of its write position pFront. */
  datatype Staging = Staging(capacity: nat, used: nat)

  /** The free cells of the staging buffer (it is built with one-byte cells). */
  function Free(st: Staging): int {
    st.capacity - st.used
  }

  /** A buffer whose front cell the tick tries to stage. */
  predicate Ready(s: Stream) {
    s.ring != [] && !s.isWaitAck && s.waitTimeCount == 0
  }

  /** The countdown after one tick: decremented when non-zero, otherwise kept. */
  function Countdown(w: int): int {
    if w != 0 then w - 1 else w
  }

  /** ringBuffPopFront: drops the front cell; an empty ring is left as it is. */
  function PopFront(ring: seq<Cell>): (r: seq<Cell>)
    ensures ring != [] ==> ring == [ring[0]] + r
    ensures ring == [] ==> r == []
  {
    if ring == [] then [] else ring[1..]
  }

  datatype Added = Added(ok: bool, staging: Staging)

  /**
   * senderAddToBuffer: copies the front cell of s into the staging buffer
   * when the staging buffer has at least cellSize free cells and s has a
   * front cell, and then advances the write position by cellSize.
   */
  function TryStage(st: Staging, s: Stream): (r: Added)
    ensures r.ok <==> s.ring != [] && Free(st) >= s.cellSize
    ensures r.staging.capacity == st.capacity
    ensures r.ok ==> Free(r.staging) == Free(st) - s.cellSize
    ensures !r.ok ==> r.staging == st
    ensures st.used <= st.capacity ==> r.staging.used <= r.staging.capacity
  {
    if Free(st) >= s.cellSize && s.ring != [] then
      Added(true, st.(used := st.used + s.cellSize))
    else
      Added(false, st)
  }

  /** The state one buffer's turn of the tick produces. */
  datatype Visited = Visited(stream: Stream, staging: Staging, counter: int)

  /**
   * One buffer's turn in the tick: stage its front cell when it is ready,
   * otherwise count down its wait time.  After staging, a buffer that needs
   * an acknowledgement waits for the sequence number q; any other buffer
   * drops its front cell.  The shared counter advances on each staging.
   */
  function Visit(s: Stream, st: Staging, q: int): (r: Visited)
    ensures r.counter == (if Staged(s, r.stream) then q + 1 else q)
    ensures Staged(s, r.stream) ==> Free(st) >= s.cellSize && Free(r.staging) == Free(st) - s.cellSize
    ensures Ready(s) && !Staged(s, r.stream) ==> r == Visited(s, st, q) && Free(st) < s.cellSize
    ensures r.staging.capacity == st.capacity
    ensures r.stream.waitTimeCount == Countdown(s.waitTimeCount)
    ensures && r.stream.id == s.id && r.stream.needAck == s.needAck && r.stream.cellSize == s.cellSize
            && r.stream.sendingWaitTime == s.sendingWaitTime && r.stream.buffSize == s.buffSize
  {
    if Ready(s) then
      var a := TryStage(st, s);
      if a.ok then
        var s' := if s.needAck then s.(isWaitAck := true, seqWaitAck := q)
                  else s.(ring := PopFront(s.ring));
        Visited(s', a.staging, q + 1)
      else
        Visited(s, st, q)
    else if s.waitTimeCount != 0 then
      Visited(s.(waitTimeCount := s.waitTimeCount - 1), st, q)
    else
      Visited(s, st, q)
  }

  /** The state after a tick. */
  datatype TickState = TickState(streams: seq<Stream>, staging: Staging, counter: int)

  /**
   * One tick of the sending thread: the buffers are visited in index order,
   * each seeing the staging buffer and counter the earlier ones left.
   */
  function RunTick(ss: seq<Stream>, st: Staging, q: int): (r: TickState)
    ensures |r.streams| == |ss|
    decreases |ss|
  {
    if ss == [] then TickState([], st, q)
    else
      var pre := RunTick(ss[..|ss| - 1], st, q);
      var v := Visit(ss[|ss| - 1], pre.staging, pre.counter);
      TickState(pre.streams + [v.stream], v.staging, v.counter)
  }

  /** n consecutive ticks; the counter is carried from tick to tick. */
  function RunTicks(ss: seq<Stream>, st: Staging, q: int, n: nat): (r: TickState)
    ensures |r.streams| == |ss|
    decreases n
  {
    if n == 0 then TickState(ss, st, q)
    else
      var t := RunTick(ss, st, q);
      RunTicks(t.streams, t.staging, t.counter, n - 1)
  }

  /** A buffer's turn staged its front cell: it was ready and it changed. */
  predicate Staged(before: Stream, after: Stream) {
    Ready(before) && after != before
  }

  /** How many of the buffers a tick took from before to after were staged. */
  function StagedCount(before: seq<Stream>, after: seq<Stream>): nat
    requires |before| == |after|
    decreases |before|
  {
    if before == [] then 0
    else
      var n := |before| - 1;
      StagedCount(before[..n], after[..n]) + (if Staged(before[n], after[n]) then 1 else 0)
  }

  /** The staging bytes those stagings took. */
  function StagedBytes(before: seq<Stream>, after: seq<Stream>): nat
    requires |before| == |after|
    decreases |before|
  {
    if before == [] then 0
    else
      var n := |before| - 1;
      StagedBytes(before[..n], after[..n]) + (if Staged(before[n], after[n]) then before[n].cellSize else 0)
  }

  /**
   * inOutBufferWithId over the buffer table: the first buffer, in index
   * order, whose id is id, if there is one.
   */
  function FirstWithId(ss: seq<Stream>, id: int): (r: Option<nat>)
    ensures r.Some? ==> r.value < |ss| && ss[r.value].id == id
    ensures r.Some? ==> forall j :: 0 <= j < r.value ==> ss[j].id != id
    ensures r.None? ==> forall j :: 0 <= j < |ss| ==> ss[j].id != id
  {
    if ss == [] then None
    else if ss[0].id == id then Some(0)
    else
      match FirstWithId(ss[1..], id)
      case None => None
      case Some(k) => Some(k + 1)
  }

  /**
   * A buffer after an acknowledgement: inOutBufferTransmitAck has left its
   * acknowledgement state as wait and seqWait, and its front cell is popped.
   */
  function Acked(s: Stream, wait: bool, seqWait: int): Stream {
    s.(isWaitAck := wait, seqWaitAck := seqWait, ring := PopFront(s.ring))
  }

  /**
   * senderTransmitAck: the first buffer with the given id takes the
   * acknowledgement state wait and seqWait and has its front cell popped;
   * every other buffer is left as it is.
   */
  function AckPop(ss: seq<Stream>, id: int, wait: bool, seqWait: int): (r: seq<Stream>)
    ensures |r| == |ss|
    ensures FirstWithId(ss, id).Some? ==>
              var k := FirstWithId(ss, id).value;
              && r[k] == Acked(ss[k], wait, seqWait)
              && forall j :: 0 <= j < |ss| && j != k ==> r[j] == ss[j]
    ensures (forall j :: 0 <= j < |ss| ==> ss[j].id != id) ==> r == ss
    ensures forall j :: 0 <= j < |ss| && r[j] != ss[j] ==>
              && ss[j].id == id && r[j].ring == PopFront(ss[j].ring)
              && r[j].isWaitAck == wait && r[j].seqWaitAck == seqWait
              && r[j].(ring := ss[j].ring, isWaitAck := ss[j].isWaitAck, seqWaitAck := ss[j].seqWaitAck) == ss[j]
  {
    match FirstWithId(ss, id)
    case None => ss
    case Some(k) => ss[k := Acked(ss[k], wait, seqWait)]
  }

  /** The parameters of one input buffer, one va_arg group of newSender. */
  datatype BufferParam = BufferParam(
    id: int, needAck: bool, sendingWaitTime: int, buffSize: nat, buffCellSize: nat)

  /**
   * A freshly created input buffer: it carries its parameter group and is
   * empty, not waiting and not counting down, so a tick leaves it as it is
   * until a cell is pushed.
   */
  function Initial(p: BufferParam): (r: Stream)
    ensures && r.id == p.id && r.needAck == p.needAck && r.cellSize == p.buffCellSize
            && r.sendingWaitTime == p.sendingWaitTime && r.buffSize == p.buffSize
    ensures r.ring == [] && !r.isWaitAck
    ensures forall st, q :: Visit(r, st, q) == Visited(r, st, q)
  {
    Stream(p.id, p.needAck, p.sendingWaitTime, p.buffSize, p.buffCellSize, [], false, 0, 0)
  }

  /**
   * The buffer table newSender builds: the groups are read first to last
   * while the slot index counts down, so the first group lands in the last slot.
   */
  function Layout(ps: seq<BufferParam>): (r: seq<Stream>)
    ensures |r| == |ps|
  {
    if ps == [] then [] else Layout(ps[1..]) + [Initial(ps[0])]
  }
}
