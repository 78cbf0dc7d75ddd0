/**
 * What one tick of the send scheduler, and a run of ticks, guarantees:
 * which buffers are staged, what happens to the others, how the shared
 * sequence counter and the staging buffer move, and that a buffer waiting
 * for an acknowledgement is never staged again while it waits.
 */
module TickProperties {
  import opened Schedule

  /**
   * What one buffer's turn does to the buffer and to the write offset, by
   * case; the counter, the room and the countdown are in Visit's own ensures.
   */
  lemma VisitOutcome(s: Stream, st: Staging, q: int)
    ensures var v := Visit(s, st, q);
      && (Staged(s, v.stream) ==>
            && v.staging.used == st.used + s.cellSize
            && v.stream == (if s.needAck then s.(isWaitAck := true, seqWaitAck := q)
                            else s.(ring := s.ring[1..])))
      && (!Staged(s, v.stream) ==>
            && v.staging == st
            && v.stream == s.(waitTimeCount := Countdown(s.waitTimeCount)))
  {
  }

  /**
   * The buffers visited first see exactly what a tick over them alone
   * would do, and the staging buffer only fills up as the tick proceeds.
   */
  lemma {:induction false} RunTickPrefix(ss: seq<Stream>, st: Staging, q: int, i: nat)
    requires i <= |ss|
    ensures RunTick(ss[..i], st, q).streams == RunTick(ss, st, q).streams[..i]
    ensures RunTick(ss[..i], st, q).staging.capacity == RunTick(ss, st, q).staging.capacity
    ensures RunTick(ss[..i], st, q).staging.used <= RunTick(ss, st, q).staging.used
    decreases |ss|
  {
    if i == |ss| {
      assert ss[..i] == ss;
    } else {
      var n := |ss| - 1;
      var front := ss[..n];
      assert front[..i] == ss[..i];
      RunTickPrefix(front, st, q, i);
      var p := RunTick(front, st, q);
      VisitOutcome(ss[n], p.staging, p.counter);
      assert RunTick(ss, st, q).streams[..i] == p.streams[..i];
    }
  }

  /** Buffer i's turn sees the staging buffer and counter the buffers before it left. */
  lemma RunTickAt(ss: seq<Stream>, st: Staging, q: int, i: nat)
    requires i < |ss|
    ensures var mid := RunTick(ss[..i], st, q);
            var v := Visit(ss[i], mid.staging, mid.counter);
            && RunTick(ss, st, q).streams[i] == v.stream
            && RunTick(ss[..i + 1], st, q) == TickState(mid.streams + [v.stream], v.staging, v.counter)
  {
    assert ss[..i + 1][..i] == ss[..i];
    assert ss[..i + 1][i] == ss[i];
    RunTickPrefix(ss, st, q, i + 1);
  }

  /**
   * Visiting buffer i turns the state a tick has reached after the buffers
   * before i (followed by the untouched rest) into the state after buffer i.
   */
  lemma RunTickStep(ss: seq<Stream>, st: Staging, q: int, i: nat)
    requires i < |ss|
    ensures var mid := RunTick(ss[..i], st, q);
            var v := Visit(ss[i], mid.staging, mid.counter);
            var next := RunTick(ss[..i + 1], st, q);
            && (mid.streams + ss[i..])[i] == ss[i]
            && next.streams + ss[i + 1..] == (mid.streams + ss[i..])[i := v.stream]
            && next.staging == v.staging
            && next.counter == v.counter
  {
    RunTickAt(ss, st, q, i);
    var mid := RunTick(ss[..i], st, q);
    var v := Visit(ss[i], mid.staging, mid.counter);
    assert ss[i..] == [ss[i]] + ss[i + 1..];
    assert (mid.streams + ss[i..])[i := v.stream] == mid.streams + [v.stream] + ss[i + 1..];
  }

  /**
   * The shared counter advances by exactly one per staged buffer, the
   * staging write position by exactly the staged cells' sizes, and the
   * staging capacity does not change.
   */
  lemma {:induction false} TickCounts(ss: seq<Stream>, st: Staging, q: int)
    ensures var r := RunTick(ss, st, q);
      && r.counter == q + StagedCount(ss, r.streams)
      && r.staging.used == st.used + StagedBytes(ss, r.streams)
      && r.staging.capacity == st.capacity
    decreases |ss|
  {
    if ss != [] {
      var n := |ss| - 1;
      TickCounts(ss[..n], st, q);
      var pre := RunTick(ss[..n], st, q);
      VisitOutcome(ss[n], pre.staging, pre.counter);
      var r := RunTick(ss, st, q);
      assert r.streams[..n] == pre.streams;
    }
  }

  /** Every buffer's countdown is decremented by one when non-zero and kept otherwise. */
  lemma {:induction false} TickCountsDown(ss: seq<Stream>, st: Staging, q: int)
    ensures var r := RunTick(ss, st, q);
      forall i :: 0 <= i < |ss| ==> r.streams[i].waitTimeCount == Countdown(ss[i].waitTimeCount)
  {
    var r := RunTick(ss, st, q);
    forall i | 0 <= i < |ss|
      ensures r.streams[i].waitTimeCount == Countdown(ss[i].waitTimeCount)
    {
      RunTickAt(ss, st, q, i);
      var mid := RunTick(ss[..i], st, q);
      VisitOutcome(ss[i], mid.staging, mid.counter);
    }
  }

  /**
   * A buffer that is empty, waiting for an acknowledgement or counting down
   * is not staged: at most its countdown moves.  A ready buffer that is not
   * staged is left untouched, and then the staging buffer is too full for
   * its cell at the end of the tick.
   */
  lemma {:induction false} TickUnstaged(ss: seq<Stream>, st: Staging, q: int)
    ensures var r := RunTick(ss, st, q);
      forall i :: 0 <= i < |ss| && !Ready(ss[i]) ==>
        r.streams[i] == ss[i].(waitTimeCount := Countdown(ss[i].waitTimeCount))
    ensures var r := RunTick(ss, st, q);
      forall i :: 0 <= i < |ss| && Ready(ss[i]) && !Staged(ss[i], r.streams[i]) ==>
        r.streams[i] == ss[i] && Free(r.staging) < ss[i].cellSize
  {
    var r := RunTick(ss, st, q);
    forall i | 0 <= i < |ss|
      ensures !Staged(ss[i], r.streams[i]) ==>
        r.streams[i] == ss[i].(waitTimeCount := Countdown(ss[i].waitTimeCount))
      ensures Ready(ss[i]) && !Staged(ss[i], r.streams[i]) ==> Free(r.staging) < ss[i].cellSize
    {
      RunTickAt(ss, st, q, i);
      var mid := RunTick(ss[..i], st, q);
      VisitOutcome(ss[i], mid.staging, mid.counter);
      RunTickPrefix(ss, st, q, i + 1);
    }
  }

  /**
   * A staged buffer that needs an acknowledgement now waits for the value
   * the shared counter had at its turn (q plus the stagings before it) and
   * keeps its cell; any other staged buffer loses exactly its front cell
   * and gets no acknowledgement state.
   */
  lemma TickStaged(ss: seq<Stream>, st: Staging, q: int)
    ensures var r := RunTick(ss, st, q);
      forall i :: 0 <= i < |ss| && Staged(ss[i], r.streams[i]) && ss[i].needAck ==>
        r.streams[i] == ss[i].(isWaitAck := true,
                               seqWaitAck := q + StagedCount(ss[..i], r.streams[..i]))
    ensures var r := RunTick(ss, st, q);
      forall i :: 0 <= i < |ss| && Staged(ss[i], r.streams[i]) && !ss[i].needAck ==>
        r.streams[i] == ss[i].(ring := ss[i].ring[1..])
  {
    var r := RunTick(ss, st, q);
    forall i | 0 <= i < |ss| && Staged(ss[i], r.streams[i])
      ensures ss[i].needAck ==>
        r.streams[i] == ss[i].(isWaitAck := true,
                               seqWaitAck := q + StagedCount(ss[..i], r.streams[..i]))
      ensures !ss[i].needAck ==> r.streams[i] == ss[i].(ring := ss[i].ring[1..])
    {
      RunTickAt(ss, st, q, i);
      var mid := RunTick(ss[..i], st, q);
      TickCounts(ss[..i], st, q);
      RunTickPrefix(ss, st, q, i);
      VisitOutcome(ss[i], mid.staging, mid.counter);
    }
  }

  /** Stagings counted over a longer prefix include those of a shorter one. */
  lemma {:induction false} StagedCountPrefixes(b: seq<Stream>, a: seq<Stream>, i: nat, j: nat)
    requires |b| == |a| && i < j <= |b|
    ensures StagedCount(b[..j], a[..j]) >=
            StagedCount(b[..i], a[..i]) + (if Staged(b[i], a[i]) then 1 else 0)
    decreases j - i
  {
    if j == i + 1 {
      assert b[..j][..i] == b[..i];
      assert a[..j][..i] == a[..i];
    } else {
      StagedCountPrefixes(b, a, i, j - 1);
      assert b[..j][..j - 1] == b[..j - 1];
      assert a[..j][..j - 1] == a[..j - 1];
    }
  }

  /**
   * The sequence numbers a tick hands to buffers that start waiting lie
   * between the counter before and after the tick, and grow strictly with
   * the buffer index, so no two waiting buffers of one tick share one.
   */
  lemma TickSequenceNumbers(ss: seq<Stream>, st: Staging, q: int)
    ensures var r := RunTick(ss, st, q);
      forall i :: 0 <= i < |ss| && Staged(ss[i], r.streams[i]) && ss[i].needAck ==>
        q <= r.streams[i].seqWaitAck < r.counter
    ensures var r := RunTick(ss, st, q);
      forall i, j :: 0 <= i < j < |ss| && Staged(ss[i], r.streams[i]) && Staged(ss[j], r.streams[j])
                     && ss[i].needAck && ss[j].needAck ==>
        r.streams[i].seqWaitAck < r.streams[j].seqWaitAck
  {
    var r := RunTick(ss, st, q);
    TickStaged(ss, st, q);
    TickCounts(ss, st, q);
    assert ss[..|ss|] == ss && r.streams[..|ss|] == r.streams;
    forall i | 0 <= i < |ss| && Staged(ss[i], r.streams[i])
      ensures StagedCount(ss[..i], r.streams[..i]) + 1 <= StagedCount(ss, r.streams)
    {
      StagedCountPrefixes(ss, r.streams, i, |ss|);
    }
    forall i, j | 0 <= i < j < |ss| && Staged(ss[i], r.streams[i])
      ensures StagedCount(ss[..i], r.streams[..i]) + 1 <= StagedCount(ss[..j], r.streams[..j])
    {
      StagedCountPrefixes(ss, r.streams, i, j);
    }
  }

  /** No countdown is negative. */
  predicate CountdownsNonNegative(ss: seq<Stream>) {
    forall i :: 0 <= i < |ss| ==> ss[i].waitTimeCount >= 0
  }

  /** Countdowns that start non-negative stay non-negative over any number of ticks. */
  lemma {:induction false} CountdownsStayNonNegative(ss: seq<Stream>, st: Staging, q: int, n: nat)
    requires CountdownsNonNegative(ss)
    ensures CountdownsNonNegative(RunTicks(ss, st, q, n).streams)
    decreases n
  {
    if n > 0 {
      TickCountsDown(ss, st, q);
      var t := RunTick(ss, st, q);
      CountdownsStayNonNegative(t.streams, t.staging, t.counter, n - 1);
    }
  }

  /**
   * A buffer waiting for an acknowledgement stays waiting for the same
   * sequence number with the same cells, however many ticks run: its cell
   * in flight is neither popped nor staged a second time.
   */
  lemma {:induction false} WaitingNeverRestaged(ss: seq<Stream>, st: Staging, q: int, n: nat, i: nat)
    requires i < |ss| && ss[i].isWaitAck
    ensures var s := RunTicks(ss, st, q, n).streams[i];
      && s.isWaitAck
      && s.seqWaitAck == ss[i].seqWaitAck
      && s.ring == ss[i].ring
      && s.id == ss[i].id && s.needAck == ss[i].needAck
    decreases n
  {
    if n > 0 {
      TickUnstaged(ss, st, q);
      var t := RunTick(ss, st, q);
      WaitingNeverRestaged(t.streams, t.staging, t.counter, n - 1, i);
    }
  }

  /** Slot |ps|-1-k of the table newSender builds holds the k-th parameter group. */
  lemma {:induction false} LayoutAt(ps: seq<BufferParam>, k: nat)
    requires k < |ps|
    ensures Layout(ps)[|ps| - 1 - k] == Initial(ps[k])
  {
    if k > 0 {
      LayoutAt(ps[1..], k - 1);
    }
  }

  /**
   * Because the groups land in reverse slot order, looking a buffer up by
   * id in a fresh table finds the group declared LAST with that id: an
   * earlier group with the same id is shadowed.
   */
  lemma LayoutLookupFindsLastDeclared(ps: seq<BufferParam>, id: int)
    ensures FirstWithId(Layout(ps), id).None? ==>
              forall m :: 0 <= m < |ps| ==> ps[m].id != id
    ensures FirstWithId(Layout(ps), id).Some? ==>
              var m := |ps| - 1 - FirstWithId(Layout(ps), id).value;
              0 <= m < |ps| && ps[m].id == id &&
              forall m' :: m < m' < |ps| ==> ps[m'].id != id
  {
    var t := Layout(ps);
    forall m | 0 <= m < |ps|
      ensures t[|ps| - 1 - m].id == ps[m].id
    {
      LayoutAt(ps, m);
    }
  }

  /**
   * An acknowledgement that clears the wait of a need-ack buffer with
   * another cell pending and no countdown lets the next tick stage that
   * cell: the buffer then waits again and keeps the cell, unless the
   * staging buffer ends the tick without room for it.
   */
  lemma {:induction false} AckReenablesStaging(ss: seq<Stream>, id: int, seqWait: int, st: Staging, q: int)
    requires FirstWithId(ss, id).Some?
    requires var k := FirstWithId(ss, id).value;
      ss[k].needAck && |ss[k].ring| >= 2 && ss[k].waitTimeCount == 0
    ensures var k := FirstWithId(ss, id).value;
      var r := RunTick(AckPop(ss, id, false, seqWait), st, q);
      || (r.streams[k].isWaitAck && r.streams[k].ring == ss[k].ring[1..])
      || Free(r.staging) < ss[k].cellSize
  {
    var acked := AckPop(ss, id, false, seqWait);
    TickUnstaged(acked, st, q);
    TickStaged(acked, st, q);
  }

  /**
   * An acknowledgement reaching a need-ack buffer that is not waiting still
   * pops its front cell.  A tick stages a need-ack buffer's front cell only
   * by making it wait, so the cell popped here was never staged.
   */
  lemma StaleAckDropsUnsentCell(ss: seq<Stream>, id: int, wait: bool, seqWait: int)
    requires FirstWithId(ss, id).Some?
    requires var k := FirstWithId(ss, id).value;
      ss[k].needAck && !ss[k].isWaitAck && ss[k].ring != []
    ensures var k := FirstWithId(ss, id).value;
      && AckPop(ss, id, wait, seqWait)[k].ring == ss[k].ring[1..]
      && forall st, q :: Staged(ss[k], Visit(ss[k], st, q).stream) ==> Visit(ss[k], st, q).stream.isWaitAck
  {
  }
}
