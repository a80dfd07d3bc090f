/**
 * The NCI logical-connection registry and the notification-handler
 * registry of the Rust NCI layer (src/rust/nci/nci.rs). The locks around
 * the maps are left out; the HAL's outgoing data channel is the sequence
 * `sent`, and the upper layer's data callbacks are recorded in `upcalls`.
 */
module NciConnections {
  import opened Bytes
  import opened NciPackets

  /** A data callback `fn(u8, u16, &[u8])`, identified by a handle. */
  type DataCallback = nat

  /** `NFC_DATA_START_CEVT`: the first fragment of a segmented message has arrived. */
  const NFC_DATA_START_CEVT: u16 := 5
  /** `NFC_DATA_CEVT`: a complete data message. */
  const NFC_DATA_CEVT: u16 := 3

  /** How a call ends: normally, or in a panic (a failed assertion, an overflow, an unwrap of None). */
  datatype Outcome = Completed | Panicked

  /** One call of a connection's data callback. */
  datatype DataUpcall = DataUpcall(callback: DataCallback, connId: u8, event: u16, data: seq<u8>)

  /** `ConnectionParameters`: the state of one open logical connection. */
  datatype ConnectionParameters = ConnectionParameters(
    callback: Option<DataCallback>,
    maxPayloadSize: u8,
    nfccCreditsAvail: u8,
    sendq: seq<DataPacket>,
    recvq: seq<DataPacket>)
  {
    /** `flush_tx`: the send queue is emptied and nothing else changes. */
    function FlushTx(): (c: ConnectionParameters)
      ensures c.sendq == []
      ensures c.callback == callback && c.maxPayloadSize == maxPayloadSize
      ensures c.nfccCreditsAvail == nfccCreditsAvail && c.recvq == recvq
    {
      this.(sendq := [])
    }
  }

  function Min(a: nat, b: nat): nat { if a < b then a else b }

  // ---------------------------------------------------------------------------
  // Credit-based flow control

  /** How many queued packets the NFCC's credits allow to be sent now. */
  function Sendable(c: ConnectionParameters): (k: nat)
    ensures k <= c.nfccCreditsAvail && k <= |c.sendq|
    ensures k == c.nfccCreditsAvail || k == |c.sendq|
  {
    Min(c.nfccCreditsAvail, |c.sendq|)
  }

  /** The packets sent when the queue is drained: the oldest ones, one per credit. */
  function DrainedPackets(c: ConnectionParameters): (out: seq<DataPacket>)
    ensures |out| <= c.nfccCreditsAvail
    ensures out + Drained(c).sendq == c.sendq
  {
    c.sendq[..Sendable(c)]
  }

  /**
   * The connection after draining: afterwards no credit is left or nothing
   * is queued, and each packet sent used exactly one credit.
   */
  function Drained(c: ConnectionParameters): (d: ConnectionParameters)
    ensures d.nfccCreditsAvail == 0 || d.sendq == []
    ensures d.nfccCreditsAvail + |c.sendq| - |d.sendq| == c.nfccCreditsAvail
    ensures d.callback == c.callback && d.maxPayloadSize == c.maxPayloadSize && d.recvq == c.recvq
  {
    var k := Sendable(c);
    c.(nfccCreditsAvail := c.nfccCreditsAvail - k, sendq := c.sendq[k..])
  }

  /** No packet is both queued and sendable: the state every drain loop leaves behind. */
  predicate Settled(c: ConnectionParameters)
  {
    c.nfccCreditsAvail == 0 || c.sendq == []
  }

  /** Draining changes a connection exactly when it is not settled, and leaves it settled. */
  lemma DrainSettles(c: ConnectionParameters)
    ensures Settled(Drained(c))
    ensures Drained(c) == c <==> Settled(c)
    ensures Settled(c) ==> DrainedPackets(c) == []
  {
  }

  // ---------------------------------------------------------------------------
  // Segmentation of outgoing payloads

  /** The payload bytes of a sequence of data packets, concatenated. */
  function PayloadBytes(q: seq<DataPacket>): seq<u8>
  {
    if q == [] then [] else q[0].payload + PayloadBytes(q[1..])
  }

  lemma {:induction false} PayloadBytesAppend(a: seq<DataPacket>, b: seq<DataPacket>)
    ensures PayloadBytes(a + b) == PayloadBytes(a) + PayloadBytes(b)
  {
    if a == [] {
      assert a + b == b;
    } else {
      assert (a + b)[1..] == a[1..] + b;
      PayloadBytesAppend(a[1..], b);
    }
  }

  /** The packets `send_packet` queues for a payload longer than the connection's maximum: max-sized Incomplete ones and a final rest. */
  function Chunks(connId: u8, p: seq<u8>, max: u8): seq<DataPacket>
    requires connId < 0x10 && max > 0
    decreases |p|
  {
    if |p| > max then [DataPacket(connId, Incomplete, 0, p[..max])] + Chunks(connId, p[max..], max)
    else if p == [] then []
    else [DataPacket(connId, CompleteOrFinal, 0, p)]
  }

  /**
   * The chunks of a non-empty payload: their payloads concatenate to it;
   * every chunk but the last is Incomplete and carries exactly `max`
   * bytes; the last is CompleteOrFinal and carries between 1 and `max`
   * bytes; all carry the packet's Conn ID and no credits.
   */
  lemma {:induction false} ChunksShape(connId: u8, p: seq<u8>, max: u8)
    requires connId < 0x10 && max > 0 && p != []
    ensures var cs := Chunks(connId, p, max);
      && cs != []
      && PayloadBytes(cs) == p
      && (forall i :: 0 <= i < |cs| ==> cs[i].connId == connId && cs[i].cr == 0)
      && (forall i :: 0 <= i < |cs| - 1 ==> cs[i].pbf == Incomplete && |cs[i].payload| == max)
      && cs[|cs| - 1].pbf == CompleteOrFinal
      && 0 < |cs[|cs| - 1].payload| <= max
    decreases |p|
  {
    var cs := Chunks(connId, p, max);
    if |p| > max {
      var head := DataPacket(connId, Incomplete, 0, p[..max]);
      var tail := Chunks(connId, p[max..], max);
      ChunksShape(connId, p[max..], max);
      assert cs == [head] + tail;
      assert cs[1..] == tail;
      assert p == p[..max] + p[max..];
      assert forall i :: 1 <= i < |cs| ==> cs[i] == tail[i - 1];
    } else {
      assert cs == [DataPacket(connId, CompleteOrFinal, 0, p)];
      assert PayloadBytes(cs) == p + PayloadBytes([]);
    }
  }

  /**
   * `n` turns of the split loop of `send_packet`, for any maximum, 0
   * included: the parts queued and the payload left. The loop stops once
   * the payload left fits.
   */
  function SplitTurns(connId: u8, p: seq<u8>, max: u8, n: nat): (seq<DataPacket>, seq<u8>)
    requires connId < 0x10
    decreases n
  {
    if n == 0 || |p| <= max then ([], p)
    else
      var more := SplitTurns(connId, p[max..], max, n - 1);
      ([DataPacket(connId, Incomplete, 0, p[..max])] + more.0, more.1)
  }

  /** The number of turns the split loop makes on a payload of `len` bytes when the maximum is positive. */
  function SplitCount(len: nat, max: nat): nat
    requires max > 0
    decreases len
  {
    if len <= max then 0 else 1 + SplitCount(len - max, max)
  }

  /**
   * As written, a maximum of 0 makes no progress: after any number of
   * turns a non-empty payload is still all there, so the loop condition
   * still holds, and every turn has queued one empty Incomplete packet.
   */
  lemma {:induction false} ZeroMaxSplitNeverEnds(connId: u8, p: seq<u8>, n: nat)
    requires connId < 0x10 && p != []
    ensures var r := SplitTurns(connId, p, 0, n);
      && r.1 == p && |r.1| > 0
      && |r.0| == n
      && forall i :: 0 <= i < n ==> r.0[i] == DataPacket(connId, Incomplete, 0, [])
    decreases n
  {
    if n > 0 {
      assert p[0..] == p && p[..0] == [];
      ZeroMaxSplitNeverEnds(connId, p, n - 1);
      var more := SplitTurns(connId, p, 0, n - 1);
      assert SplitTurns(connId, p, 0, n) == ([DataPacket(connId, Incomplete, 0, [])] + more.0, more.1);
    }
  }

  /**
   * With a positive maximum the loop ends: after `SplitCount` turns the
   * payload left fits, and the parts queued, followed by the final part
   * when bytes are left, are exactly `Chunks`.
   */
  lemma {:induction false} SplitTurnsFinish(connId: u8, p: seq<u8>, max: u8)
    requires connId < 0x10 && max > 0
    ensures var r := SplitTurns(connId, p, max, SplitCount(|p|, max));
      && |r.1| <= max
      && r.0 + (if r.1 == [] then [] else [DataPacket(connId, CompleteOrFinal, 0, r.1)]) == Chunks(connId, p, max)
    decreases |p|
  {
    if |p| > max {
      var head := DataPacket(connId, Incomplete, 0, p[..max]);
      SplitTurnsFinish(connId, p[max..], max);
      var more := SplitTurns(connId, p[max..], max, SplitCount(|p| - max, max));
      assert |p[max..]| == |p| - max;
      assert SplitTurns(connId, p, max, SplitCount(|p|, max)) == ([head] + more.0, more.1);
      var last := if more.1 == [] then [] else [DataPacket(connId, CompleteOrFinal, 0, more.1)];
      ConcatAssoc([head], more.0, last);
    }
  }

  /** What `send_packet` appends to the send queue for a packet. */
  function Queued(c: ConnectionParameters, pkt: DataPacket): seq<DataPacket>
    requires |pkt.payload| > c.maxPayloadSize ==> c.maxPayloadSize > 0
  {
    if |pkt.payload| > c.maxPayloadSize then Chunks(pkt.connId, pkt.payload, c.maxPayloadSize) else [pkt]
  }

  /**
   * Whatever its size, the payload is queued whole and in order. A payload
   * that fits is queued as the packet itself; a longer one as two or more
   * chunks that each fit, the last of them CompleteOrFinal.
   */
  lemma QueuedPayload(c: ConnectionParameters, pkt: DataPacket)
    requires |pkt.payload| > c.maxPayloadSize ==> c.maxPayloadSize > 0
    ensures var q := Queued(c, pkt);
      && PayloadBytes(q) == pkt.payload
      && (|pkt.payload| <= c.maxPayloadSize ==> q == [pkt])
      && (|pkt.payload| > c.maxPayloadSize ==>
           && |q| >= 2
           && (forall i :: 0 <= i < |q| ==> q[i].connId == pkt.connId && |q[i].payload| <= c.maxPayloadSize)
           && q[|q| - 1].pbf == CompleteOrFinal)
  {
    var max := c.maxPayloadSize;
    if |pkt.payload| > max {
      var p := pkt.payload;
      ChunksShape(pkt.connId, p, max);
      ChunksShape(pkt.connId, p[max..], max);
      assert Chunks(pkt.connId, p, max) == [DataPacket(pkt.connId, Incomplete, 0, p[..max])] + Chunks(pkt.connId, p[max..], max);
    } else {
      assert PayloadBytes([pkt]) == pkt.payload + PayloadBytes([]);
    }
  }

  // ---------------------------------------------------------------------------
  // Reassembly of incoming fragments

  /**
   * The data of the `NFC_DATA_CEVT` event for the received fragments: a
   * status byte 0, the first fragment serialised whole, then the
   * payloads of the others.
   */
  function DataEvent(q: seq<DataPacket>): seq<u8>
    requires q != []
  {
    [0] + ToBytes(q[0]) + PayloadBytes(q[1..])
  }

  /**
   * The event carries the status byte, the first fragment's header, and
   * the payloads of all fragments in the order received.
   */
  lemma DataEventLayout(q: seq<DataPacket>)
    requires q != []
    ensures var e := DataEvent(q);
      && |e| == 4 + |PayloadBytes(q)|
      && e[0] == 0
      && e[1..4] == ToBytes(q[0])[..3]
      && e[4..] == PayloadBytes(q)
  {
    var e := DataEvent(q);
    var b := ToBytes(q[0]);
    assert b == b[..3] + q[0].payload;
    assert e == [0] + b[..3] + (q[0].payload + PayloadBytes(q[1..]));
  }

  /** The loop of `send_callback` that fills the event buffer from the receive queue. */
  method BuildDataEvent(recvq: seq<DataPacket>) returns (buffer: seq<u8>)
    requires recvq != []
    ensures buffer == DataEvent(recvq)
  {
    buffer := [0];
    var q := recvq;
    buffer := buffer + ToBytes(q[0]);
    q := q[1..];
    while q != []
      invariant buffer + PayloadBytes(q) == DataEvent(recvq)
      decreases |q|
    {
      buffer := buffer + q[0].payload;
      q := q[1..];
    }
  }

  /** The connection with more credits, before anything is sent. */
  function WithCredits(c: ConnectionParameters, ncreds: u8): (d: ConnectionParameters)
    requires c.nfccCreditsAvail + ncreds < 0x100
  {
    c.(nfccCreditsAvail := c.nfccCreditsAvail + ncreds)
  }

  /** The connection after `add_credits` with a count that does not overflow: settled again, all else kept. */
  function Credited(c: ConnectionParameters, ncreds: u8): (d: ConnectionParameters)
    requires c.nfccCreditsAvail + ncreds < 0x100
    ensures Settled(d) && d.callback == c.callback && d.maxPayloadSize == c.maxPayloadSize && d.recvq == c.recvq
  {
    DrainSettles(WithCredits(c, ncreds));
    Drained(WithCredits(c, ncreds))
  }

  /** Adding no credits to a settled connection changes nothing and sends nothing. */
  lemma CreditedNothing(c: ConnectionParameters)
    requires Settled(c)
    ensures Credited(c, 0) == c && DrainedPackets(WithCredits(c, 0)) == []
  {
    assert WithCredits(c, 0) == c;
    DrainSettles(c);
  }

  /** What receiving one fragment does: how the call ends, the connection after it, the callbacks made. */
  datatype Reception = Reception(outcome: Outcome, conn: ConnectionParameters, upcalls: seq<DataUpcall>)

  /**
   * One data packet arriving on an open connection. A fragment that
   * starts a segmented message is announced with `NFC_DATA_START_CEVT`; a
   * non-final fragment is queued; a final one delivers the queued
   * fragments and itself as one `NFC_DATA_CEVT` and empties the queue.
   * Calling an absent callback panics: before queueing for a start
   * fragment, after emptying the queue for a final one.
   */
  function Receive(connId: u8, c: ConnectionParameters, pkt: DataPacket): Reception
  {
    if pkt.pbf == Incomplete then
      if c.recvq == [] && c.callback.None? then Reception(Panicked, c, [])
      else
        var start := if c.recvq == [] then [DataUpcall(c.callback.value, connId, NFC_DATA_START_CEVT, [])] else [];
        Reception(Completed, c.(recvq := c.recvq + [pkt]), start)
    else if c.callback.None? then Reception(Panicked, c.(recvq := []), [])
    else Reception(Completed, c.(recvq := []), [DataUpcall(c.callback.value, connId, NFC_DATA_CEVT, DataEvent(c.recvq + [pkt]))])
  }

  /**
   * With a callback present, an arriving fragment announces a message start
   * exactly when it is not final and nothing is queued, delivers data
   * exactly when it is final, and only ever touches the receive queue.
   */
  lemma ReceiveEvents(connId: u8, c: ConnectionParameters, pkt: DataPacket)
    requires c.callback.Some?
    ensures var rx := Receive(connId, c, pkt);
      && rx.outcome == Completed
      && rx.conn.callback == c.callback && rx.conn.sendq == c.sendq
      && rx.conn.nfccCreditsAvail == c.nfccCreditsAvail && rx.conn.maxPayloadSize == c.maxPayloadSize
      && (DataUpcall(c.callback.value, connId, NFC_DATA_START_CEVT, []) in rx.upcalls <==>
            pkt.pbf == Incomplete && c.recvq == [])
      && (pkt.pbf == Incomplete ==> rx.conn.recvq == c.recvq + [pkt] && |rx.upcalls| <= 1)
      && (pkt.pbf == CompleteOrFinal ==>
            && rx.conn.recvq == []
            && rx.upcalls == [DataUpcall(c.callback.value, connId, NFC_DATA_CEVT, DataEvent(c.recvq + [pkt]))])
  {
  }

  /** Receiving fragments one after the other: the outcomes, the final connection and all callbacks made. */
  function ReceiveAll(connId: u8, c: ConnectionParameters, fs: seq<DataPacket>): Reception
    decreases |fs|
  {
    if fs == [] then Reception(Completed, c, [])
    else
      var rx := Receive(connId, c, fs[0]);
      if rx.outcome == Panicked then rx
      else
        var rest := ReceiveAll(connId, rx.conn, fs[1..]);
        Reception(rest.outcome, rest.conn, rx.upcalls + rest.upcalls)
  }

  /** Receiving a first fragment that completes, then the rest. */
  lemma ReceiveAllCons(connId: u8, c: ConnectionParameters, fs: seq<DataPacket>)
    requires fs != [] && Receive(connId, c, fs[0]).outcome == Completed
    ensures var rx := Receive(connId, c, fs[0]);
      var rest := ReceiveAll(connId, rx.conn, fs[1..]);
      ReceiveAll(connId, c, fs) == Reception(rest.outcome, rest.conn, rx.upcalls + rest.upcalls)
  {
  }

  /** A non-final fragment arriving while a message is in progress is queued, with no callback. */
  lemma ReceiveQueued(connId: u8, c: ConnectionParameters, f: DataPacket)
    requires c.recvq != [] && f.pbf == Incomplete
    ensures Receive(connId, c, f) == Reception(Completed, c.(recvq := c.recvq + [f]), [])
  {
  }

  /** Non-final fragments arriving while a message is in progress are queued in order, with no callback. */
  lemma {:induction false} ReceiveAllQueues(connId: u8, c: ConnectionParameters, fs: seq<DataPacket>)
    requires c.recvq != []
    requires forall i :: 0 <= i < |fs| ==> fs[i].pbf == Incomplete
    ensures ReceiveAll(connId, c, fs) == Reception(Completed, c.(recvq := c.recvq + fs), [])
    decreases |fs|
  {
    if fs == [] {
      assert c.recvq + fs == c.recvq;
    } else {
      var c1 := c.(recvq := c.recvq + [fs[0]]);
      var tail := fs[1..];
      ReceiveQueued(connId, c, fs[0]);
      ReceiveAllCons(connId, c, fs);
      assert forall i :: 0 <= i < |tail| ==> tail[i].pbf == Incomplete by {
        forall i | 0 <= i < |tail| ensures tail[i].pbf == Incomplete {
          assert tail[i] == fs[i + 1];
        }
      }
      ReceiveAllQueues(connId, c1, tail);
      HeadTail(fs);
      ConcatAssoc(c.recvq, [fs[0]], tail);
    }
  }

  /** The first fragment of a segmented message is announced and queued. */
  lemma ReceiveStart(connId: u8, c: ConnectionParameters, f: DataPacket)
    requires c.callback.Some? && c.recvq == [] && f.pbf == Incomplete
    ensures Receive(connId, c, f)
         == Reception(Completed, c.(recvq := [f]), [DataUpcall(c.callback.value, connId, NFC_DATA_START_CEVT, [])])
  {
  }

  /** A final fragment delivers the queued fragments and itself and empties the queue. */
  lemma ReceiveFinal(connId: u8, c: ConnectionParameters, f: DataPacket)
    requires c.callback.Some? && f.pbf == CompleteOrFinal
    ensures Receive(connId, c, f)
         == Reception(Completed, c.(recvq := []), [DataUpcall(c.callback.value, connId, NFC_DATA_CEVT, DataEvent(c.recvq + [f]))])
  {
  }

  /**
   * A message received as a run of non-final fragments and a final one,
   * on a connection with a callback and nothing queued, is announced once
   * and delivered once: the data event holds the first fragment's header
   * and every fragment's payload in order, and the queue is left empty.
   */
  lemma ReceiveMessage(connId: u8, c: ConnectionParameters, fs: seq<DataPacket>, last: DataPacket)
    requires c.callback.Some? && c.recvq == []
    requires forall i :: 0 <= i < |fs| ==> fs[i].pbf == Incomplete
    requires last.pbf == CompleteOrFinal
    ensures var cb := c.callback.value;
      var rx := ReceiveAll(connId, c, fs + [last]);
      && rx.outcome == Completed
      && rx.conn == c
      && rx.upcalls ==
           (if fs == [] then [] else [DataUpcall(cb, connId, NFC_DATA_START_CEVT, [])])
           + [DataUpcall(cb, connId, NFC_DATA_CEVT, DataEvent(fs + [last]))]
      && DataEvent(fs + [last])[4..] == PayloadBytes(fs + [last])
  {
    DataEventLayout(fs + [last]);
    if fs == [] {
      ReceiveUnsegmented(connId, c, last);
    } else {
      ReceiveSegmented(connId, c, fs, last);
    }
  }

  /** A single final fragment on an empty queue is delivered on its own. */
  lemma ReceiveUnsegmented(connId: u8, c: ConnectionParameters, last: DataPacket)
    requires c.callback.Some? && c.recvq == [] && last.pbf == CompleteOrFinal
    ensures ReceiveAll(connId, c, [last])
         == Reception(Completed, c, [DataUpcall(c.callback.value, connId, NFC_DATA_CEVT, DataEvent([last]))])
  {
    assert c.recvq + [last] == [last];
    ReceiveFinal(connId, c, last);
    ReceiveAllCons(connId, c, [last]);
    assert c.(recvq := []) == c;
  }

  /** Non-final fragments then a final one on an empty queue: one start event, then one delivery of all of them. */
  lemma ReceiveSegmented(connId: u8, c: ConnectionParameters, fs: seq<DataPacket>, last: DataPacket)
    requires c.callback.Some? && c.recvq == [] && fs != []
    requires forall i :: 0 <= i < |fs| ==> fs[i].pbf == Incomplete
    requires last.pbf == CompleteOrFinal
    ensures var cb := c.callback.value;
      ReceiveAll(connId, c, fs + [last])
      == Reception(Completed, c, [DataUpcall(cb, connId, NFC_DATA_START_CEVT, []),
                                  DataUpcall(cb, connId, NFC_DATA_CEVT, DataEvent(fs + [last]))])
  {
    var all := fs + [last];
    var c1 := c.(recvq := [fs[0]]);
    var c2 := c.(recvq := fs);
    ReceiveStart(connId, c, fs[0]);
    TailOfConcat(fs, [last]);
    ReceiveAllCons(connId, c, all);
    ReceiveAllQueues(connId, c1, fs[1..]);
    ReceiveAllAppend(connId, c1, fs[1..], [last]);
    HeadTail(fs);
    assert c1.(recvq := c1.recvq + fs[1..]) == c2;
    ReceiveFinal(connId, c2, last);
    ReceiveAllCons(connId, c2, [last]);
    assert c2.(recvq := []) == c;
  }

  /** Receiving two runs of fragments is receiving the first, then the second from where it left off. */
  lemma {:induction false} ReceiveAllAppend(connId: u8, c: ConnectionParameters, a: seq<DataPacket>, b: seq<DataPacket>)
    requires ReceiveAll(connId, c, a).outcome == Completed
    ensures var ra := ReceiveAll(connId, c, a);
      var rb := ReceiveAll(connId, ra.conn, b);
      ReceiveAll(connId, c, a + b) == Reception(rb.outcome, rb.conn, ra.upcalls + rb.upcalls)
    decreases |a|
  {
    if a == [] {
      assert a + b == b;
    } else {
      var rx := Receive(connId, c, a[0]);
      assert rx.outcome == Completed;
      ReceiveAllCons(connId, c, a);
      ReceiveAllAppend(connId, rx.conn, a[1..], b);
      ReceiveAllAppendStep(connId, c, a, b);
    }
  }

  /**
   * The step of `ReceiveAllAppend`: when the first fragment completes and
   * the property holds for the rest of the first run, it holds for the
   * whole first run.
   */
  lemma ReceiveAllAppendStep(connId: u8, c: ConnectionParameters, a: seq<DataPacket>, b: seq<DataPacket>)
    requires a != [] && Receive(connId, c, a[0]).outcome == Completed
    requires var rx := Receive(connId, c, a[0]);
      var ra := ReceiveAll(connId, rx.conn, a[1..]);
      var rb := ReceiveAll(connId, ra.conn, b);
      && ra.outcome == Completed
      && ReceiveAll(connId, rx.conn, a[1..] + b) == Reception(rb.outcome, rb.conn, ra.upcalls + rb.upcalls)
    ensures var ra := ReceiveAll(connId, c, a);
      var rb := ReceiveAll(connId, ra.conn, b);
      ReceiveAll(connId, c, a + b) == Reception(rb.outcome, rb.conn, ra.upcalls + rb.upcalls)
  {
    var rx := Receive(connId, c, a[0]);
    var ra := ReceiveAll(connId, rx.conn, a[1..]);
    var rb := ReceiveAll(connId, ra.conn, b);
    ReceiveAllCons(connId, c, a);
    TailOfConcat(a, b);
    ReceiveAllCons(connId, c, a + b);
    ConcatAssoc(rx.upcalls, ra.upcalls, rb.upcalls);
  }

  // ---------------------------------------------------------------------------
  // The registry

  class LogicalConnectionsRegistry {
    /** The open connections by Conn ID. */
    var conns: map<u8, ConnectionParameters>
    /** The packets handed to the HAL's outgoing data channel, oldest first. */
    var sent: seq<DataPacket>
    /** The data callbacks made, oldest first. */
    var upcalls: seq<DataUpcall>

    /** Every open connection is settled: no credit is left unused while packets wait. */
    ghost predicate Valid()
      reads this
    {
      forall id :: id in conns ==> Settled(conns[id])
    }

    constructor ()
      ensures Valid()
      ensures conns == map[] && sent == [] && upcalls == []
    {
      conns := map[];
      sent := [];
      upcalls := [];
    }

    /**
     * `open`: records a connection with empty queues. The map insert
     * happens before the assertion, so a duplicate id replaces the old
     * entry and then panics.
     */
    method Open(connId: u8, cb: Option<DataCallback>, maxPayloadSize: u8, nfccCreditsAvail: u8)
      returns (r: Outcome)
      requires Valid()
      modifies this
      ensures Valid()
      ensures conns == old(conns)[connId := ConnectionParameters(cb, maxPayloadSize, nfccCreditsAvail, [], [])]
      ensures r == Panicked <==> connId in old(conns)
      ensures sent == old(sent) && upcalls == old(upcalls)
    {
      var existed := connId in conns;
      conns := conns[connId := ConnectionParameters(cb, maxPayloadSize, nfccCreditsAvail, [], [])];
      if existed {
        return Panicked;
      }
      return Completed;
    }

    /** `set_static_callback`: replaces the callback of an open static connection (id 0 or 1) with a present one. */
    method SetStaticCallback(connId: u8, cb: Option<DataCallback>)
      requires Valid()
      modifies this
      ensures Valid()
      ensures conns == if connId < 2 && cb.Some? && connId in old(conns)
        then old(conns)[connId := old(conns)[connId].(callback := cb)]
        else old(conns)
      ensures sent == old(sent) && upcalls == old(upcalls)
    {
      if connId < 2 && cb.Some? {
        if connId in conns {
          conns := conns[connId := conns[connId].(callback := cb)];
        }
      }
    }

    /** `close`: removes the connection and returns its callback; an unknown id yields None. */
    method Close(connId: u8) returns (cb: Option<DataCallback>)
      requires Valid()
      modifies this
      ensures Valid()
      ensures connId in old(conns) ==> cb == old(conns)[connId].callback
      ensures connId !in old(conns) ==> cb == None
      ensures conns == old(conns) - {connId}
      ensures sent == old(sent) && upcalls == old(upcalls)
    {
      if connId in conns {
        cb := conns[connId].callback;
        conns := conns - {connId};
      } else {
        cb := None;
      }
    }

    /** The drain loop shared by `add_credits` and `send_packet`: one queued packet sent per credit, oldest first. */
    method DrainSendQueue(connId: u8)
      requires connId in conns
      modifies this
      ensures conns == old(conns)[connId := Drained(old(conns)[connId])]
      ensures sent == old(sent) + DrainedPackets(old(conns)[connId])
      ensures upcalls == old(upcalls)
    {
      ghost var c0 := conns[connId];
      while conns[connId].sendq != [] && conns[connId].nfccCreditsAvail > 0
        invariant connId in conns
        invariant var c := conns[connId];
          && conns == old(conns)[connId := c]
          && c.callback == c0.callback && c.maxPayloadSize == c0.maxPayloadSize && c.recvq == c0.recvq
          && |c.sendq| <= |c0.sendq|
          && c.nfccCreditsAvail + |c0.sendq| - |c.sendq| == c0.nfccCreditsAvail
          && c.sendq == c0.sendq[|c0.sendq| - |c.sendq|..]
          && sent == old(sent) + c0.sendq[..|c0.sendq| - |c.sendq|]
        invariant upcalls == old(upcalls)
        decreases |conns[connId].sendq|
      {
        var c := conns[connId];
        sent := sent + [c.sendq[0]];
        conns := conns[connId := c.(sendq := c.sendq[1..], nfccCreditsAvail := c.nfccCreditsAvail - 1)];
        ghost var m := |c0.sendq| - |c.sendq|;
        assert c.sendq[0] == c0.sendq[m];
        assert c0.sendq[..m + 1] == c0.sendq[..m] + [c0.sendq[m]];
        assert c.sendq[1..] == c0.sendq[m + 1..];
      }
    }

    /**
     * `add_credits`: adds the credits to an open connection, then sends
     * queued packets while credits remain. An overflow of the 8-bit
     * counter panics with nothing changed; an unknown id changes nothing.
     */
    method AddCredits(connId: u8, ncreds: u8) returns (r: Outcome)
      requires Valid()
      modifies this
      ensures Valid()
      ensures connId in old(conns) && old(conns)[connId].nfccCreditsAvail + ncreds < 0x100 ==>
        && r == Completed
        && conns == old(conns)[connId := Credited(old(conns)[connId], ncreds)]
        && sent == old(sent) + DrainedPackets(WithCredits(old(conns)[connId], ncreds))
      ensures connId in old(conns) && old(conns)[connId].nfccCreditsAvail + ncreds >= 0x100 ==>
        r == Panicked && conns == old(conns) && sent == old(sent)
      ensures connId !in old(conns) ==> r == Completed && conns == old(conns) && sent == old(sent)
      ensures upcalls == old(upcalls)
    {
      if connId in conns {
        var c := conns[connId];
        if c.nfccCreditsAvail + ncreds >= 0x100 {
          return Panicked;
        }
        conns := conns[connId := WithCredits(c, ncreds)];
        DrainSendQueue(connId);
      }
      return Completed;
    }

    /**
     * `send_packet`: queues the packet on an open connection, split into
     * chunks when its payload exceeds the connection's maximum, then
     * sends queued packets while credits remain. An unknown id changes
     * nothing.
     */
    method SendPacket(connId: u8, pkt: DataPacket)
      requires Valid()
      requires connId in conns && |pkt.payload| > conns[connId].maxPayloadSize ==> conns[connId].maxPayloadSize > 0
      modifies this
      ensures connId in old(conns) ==>
        var c := old(conns)[connId];
        var c1 := c.(sendq := c.sendq + Queued(c, pkt));
        && conns == old(conns)[connId := Drained(c1)]
        && sent == old(sent) + DrainedPackets(c1)
      ensures connId !in old(conns) ==> conns == old(conns) && sent == old(sent)
      ensures upcalls == old(upcalls)
      ensures Valid()
    {
      if connId in conns {
        var c := conns[connId];
        var max := c.maxPayloadSize;
        if |pkt.payload| > max {
          var p := pkt.payload;
          var pktConnId := pkt.connId;
          while |p| > max
            invariant connId in conns && conns == old(conns)[connId := conns[connId]]
            invariant conns[connId] == c.(sendq := conns[connId].sendq)
            invariant conns[connId].sendq + Chunks(pktConnId, p, max) == c.sendq + Chunks(pktConnId, pkt.payload, max)
            invariant p != []
            invariant sent == old(sent) && upcalls == old(upcalls)
            decreases |p|
          {
            var part := DataPacket(pktConnId, Incomplete, 0, p[..max]);
            var cp := conns[connId];
            assert Chunks(pktConnId, p, max) == [part] + Chunks(pktConnId, p[max..], max);
            conns := conns[connId := cp.(sendq := cp.sendq + [part])];
            p := p[max..];
          }
          if p != [] {
            var end := DataPacket(pktConnId, CompleteOrFinal, 0, p);
            assert Chunks(pktConnId, p, max) == [end];
            var cp := conns[connId];
            conns := conns[connId := cp.(sendq := cp.sendq + [end])];
          }
        } else {
          conns := conns[connId := c.(sendq := c.sendq + [pkt])];
        }
        DrainSendQueue(connId);
      }
    }

    /**
     * `send_callback`: a data packet received from the NFCC. Its credits
     * are added first (draining the send queue); then, on an open
     * connection, the fragment is handled as `Receive` describes.
     */
    method SendCallback(pkt: DataPacket) returns (r: Outcome)
      requires Valid()
      modifies this
      ensures Valid()
      ensures pkt.connId !in old(conns) ==>
        r == Completed && conns == old(conns) && sent == old(sent) && upcalls == old(upcalls)
      ensures pkt.connId in old(conns) && old(conns)[pkt.connId].nfccCreditsAvail + pkt.cr >= 0x100 ==>
        r == Panicked && conns == old(conns) && sent == old(sent) && upcalls == old(upcalls)
      ensures pkt.connId in old(conns) && old(conns)[pkt.connId].nfccCreditsAvail + pkt.cr < 0x100 ==>
        var c := old(conns)[pkt.connId];
        var rx := Receive(pkt.connId, Credited(c, pkt.cr), pkt);
        && r == rx.outcome
        && conns == old(conns)[pkt.connId := rx.conn]
        && sent == old(sent) + DrainedPackets(WithCredits(c, pkt.cr))
        && upcalls == old(upcalls) + rx.upcalls
    {
      var connId := pkt.connId;
      var ncreds := pkt.cr;
      if connId !in conns {
        r := ReceiveFragment(pkt);
        return;
      }
      var c := conns[connId];
      if c.nfccCreditsAvail + ncreds >= 0x100 {
        r := AddCredits(connId, ncreds);
        return;
      }
      ghost var c1 := Credited(c, ncreds);
      if ncreds > 0 {
        r := AddCredits(connId, ncreds);
        if r == Panicked {
          return;
        }
      } else {
        assert Settled(c);
        CreditedNothing(c);
      }
      r := ReceiveFragment(pkt);
    }

    /** The part of `send_callback` after the credits are added: queueing the fragment and calling back. */
    method ReceiveFragment(pkt: DataPacket) returns (r: Outcome)
      requires Valid()
      modifies this
      ensures Valid()
      ensures pkt.connId !in old(conns) ==> r == Completed && conns == old(conns) && upcalls == old(upcalls)
      ensures pkt.connId in old(conns) ==>
        var rx := Receive(pkt.connId, old(conns)[pkt.connId], pkt);
        && r == rx.outcome
        && conns == old(conns)[pkt.connId := rx.conn]
        && upcalls == old(upcalls) + rx.upcalls
      ensures sent == old(sent)
    {
      var connId := pkt.connId;
      var done := pkt.pbf == CompleteOrFinal;
      if connId in conns {
        var c := conns[connId];
        if !done && c.recvq == [] {
          if c.callback.None? {
            return Panicked;
          }
          upcalls := upcalls + [DataUpcall(c.callback.value, connId, NFC_DATA_START_CEVT, [])];
        }
        var recvq := c.recvq + [pkt];
        conns := conns[connId := c.(recvq := recvq)];
        if done {
          var dataCevt := BuildDataEvent(recvq);
          conns := conns[connId := c.(recvq := [])];
          if c.callback.None? {
            return Panicked;
          }
          upcalls := upcalls + [DataUpcall(c.callback.value, connId, NFC_DATA_CEVT, dataCevt)];
        }
      }
      return Completed;
    }

    /** `flush_data`: empties the send queue of an open connection; the result says whether it was open. */
    method FlushData(connId: u8) returns (found: bool)
      requires Valid()
      modifies this
      ensures Valid()
      ensures found <==> connId in old(conns)
      ensures conns == if found then old(conns)[connId := old(conns)[connId].FlushTx()] else old(conns)
      ensures sent == old(sent) && upcalls == old(upcalls)
    {
      if connId in conns {
        conns := conns[connId := conns[connId].FlushTx()];
        return true;
      }
      return false;
    }
  }

  // ---------------------------------------------------------------------------
  // Notification handlers

  /** An NCI opcode: group and opcode identifiers. */
  datatype Opcode = Opcode(gid: u8, oid: u8)

  /** A one-shot notification sender, identified by a handle. */
  type NotificationSender = nat

  class EventRegistry {
    /** The registered handler per opcode. */
    var handlers: map<Opcode, NotificationSender>

    constructor ()
      ensures handlers == map[]
    {
      handlers := map[];
    }

    /** `register`: records the handler; the insert happens before the assertion, so a second handler replaces the first and then panics. */
    method Register(code: Opcode, sender: NotificationSender) returns (r: Outcome)
      modifies this
      ensures handlers == old(handlers)[code := sender]
      ensures r == Panicked <==> code in old(handlers)
    {
      var existed := code in handlers;
      handlers := handlers[code := sender];
      if existed {
        return Panicked;
      }
      return Completed;
    }

    /** `unregister`: removes and returns the handler for the opcode, if any. */
    method Unregister(code: Opcode) returns (sender: Option<NotificationSender>)
      modifies this
      ensures code in old(handlers) ==> sender == Some(old(handlers)[code])
      ensures code !in old(handlers) ==> sender == None
      ensures handlers == old(handlers) - {code}
    {
      if code in handlers {
        sender := Some(handlers[code]);
        handlers := handlers - {code};
      } else {
        sender := None;
      }
    }
  }

  /** Registering and then unregistering an opcode hands back the sender and removes the entry. */
  method RegisterThenUnregister(reg: EventRegistry, code: Opcode, sender: NotificationSender)
    returns (got: Option<NotificationSender>)
    requires code !in reg.handlers
    modifies reg
    ensures got == Some(sender) && reg.handlers == old(reg.handlers)
  {
    var r := reg.Register(code, sender);
    assert r == Completed;
    got := reg.Unregister(code);
    assert reg.handlers == old(reg.handlers);
  }
}
