/**
 * The emulator's NCI transport framing and its device table
 * (tools/casimir/src/main.rs). The TCP socket is abstracted: the writer
 * appends whole segments (header and payload bytes) to a sequence, the
 * reader consumes a byte stream.
 */
module CasimirTransport {
  import opened Bytes
  import opened NciPackets

  const HEADER_SIZE: nat := 3
  const MAX_SEGMENT_PAYLOAD: nat := 255
  const MAX_DEVICES: nat := 2

  // ---------------------------------------------------------------------------
  // Header byte 0

  /**
   * Header byte 0 with its PBF bit (0x10) set to the flag: `b & !0x10 |
   * pbf << 4`, written as the bits above (5-7), the flag (4) and the bits
   * below (0-3).
   */
  function WithPbf(b: u8, pbf: PacketBoundaryFlag): u8
  {
    b / 0x20 * 0x20 + PbfBit(pbf) * 0x10 + b % 0x10
  }

  /** The flag in a header byte 0. */
  function PbfOf(b: u8): PacketBoundaryFlag
  {
    if (b / 0x10) % 2 == 0 then CompleteOrFinal else Incomplete
  }

  /** Setting the flag sets exactly bit 4: it reads back, and the other seven bits are those of the input. */
  lemma WithPbfBits(b: u8, pbf: PacketBoundaryFlag)
    ensures PbfOf(WithPbf(b, pbf)) == pbf
    ensures WithPbf(b, pbf) / 0x20 == b / 0x20 && WithPbf(b, pbf) % 0x10 == b % 0x10
  {
    var q, k, r := b / 0x20, PbfBit(pbf), b % 0x10;
    var w := WithPbf(b, pbf);
    assert w == q * 0x20 + (k * 0x10 + r) && 0 <= k * 0x10 + r < 0x20;
    assert w / 0x20 == q;
    assert w == (q * 2 + k) * 0x10 + r;
    assert w % 0x10 == r && w / 0x10 == q * 2 + k;
  }

  /** A byte whose flag is already the one being set is left unchanged. */
  lemma WithPbfNoChange(b: u8, pbf: PacketBoundaryFlag)
    requires PbfOf(b) == pbf
    ensures WithPbf(b, pbf) == b
  {
  }

  /** The result of setting the flag depends only on the bits other than the PBF bit. */
  lemma WithPbfMasked(a: u8, b: u8, pbf: PacketBoundaryFlag)
    requires a / 0x20 == b / 0x20 && a % 0x10 == b % 0x10
    ensures WithPbf(a, pbf) == WithPbf(b, pbf)
  {
  }

  // ---------------------------------------------------------------------------
  // Segmentation

  function Min(a: nat, b: nat): nat { if a < b then a else b }

  /** The segments `NciWriter::write` emits for a payload, given header bytes 0 and 1. */
  function Segments(h0: u8, h1: u8, p: seq<u8>): (segs: seq<seq<u8>>)
    decreases |p|
  {
    var n := Min(MAX_SEGMENT_PAYLOAD, |p|);
    var pbf := if n < |p| then Incomplete else CompleteOrFinal;
    var seg := [WithPbf(h0, pbf), h1, n] + p[..n];
    if n == |p| then [seg] else [seg] + Segments(h0, h1, p[n..])
  }

  /** The payload bytes of a segment. */
  function SegmentPayload(seg: seq<u8>): seq<u8>
  {
    if |seg| < HEADER_SIZE then [] else seg[HEADER_SIZE..]
  }

  function Payloads(segs: seq<seq<u8>>): seq<seq<u8>>
  {
    if segs == [] then [] else [SegmentPayload(segs[0])] + Payloads(segs[1..])
  }

  /** ⌈n / 255⌉, and at least 1. */
  function SegmentCount(n: nat): nat
  {
    if n <= MAX_SEGMENT_PAYLOAD then 1 else 1 + SegmentCount(n - MAX_SEGMENT_PAYLOAD)
  }

  /**
   * Every segment has a three-byte header and at most 255 payload bytes;
   * byte 2 is its payload length, byte 1 is the input's byte 1, byte 0 is
   * the input's byte 0 with the PBF bit set exactly on the segments before
   * the last. There are max(1, ⌈|p| / 255⌉) of them and their payloads
   * concatenate to the input payload.
   */
  lemma {:induction false} SegmentsShape(h0: u8, h1: u8, p: seq<u8>)
    ensures var segs := Segments(h0, h1, p);
      && |segs| == SegmentCount(|p|)
      && Flatten(Payloads(segs)) == p
      && forall i :: 0 <= i < |segs| ==>
           && |segs[i]| >= HEADER_SIZE
           && |SegmentPayload(segs[i])| <= MAX_SEGMENT_PAYLOAD
           && segs[i][2] == |SegmentPayload(segs[i])|
           && segs[i][1] == h1
           && segs[i][0] == WithPbf(h0, if i < |segs| - 1 then Incomplete else CompleteOrFinal)
    decreases |p|
  {
    var n := Min(MAX_SEGMENT_PAYLOAD, |p|);
    var pbf := if n < |p| then Incomplete else CompleteOrFinal;
    var seg := [WithPbf(h0, pbf), h1, n] + p[..n];
    assert SegmentPayload(seg) == p[..n];
    if n < |p| {
      SegmentsShape(h0, h1, p[n..]);
      var rest := Segments(h0, h1, p[n..]);
      assert Segments(h0, h1, p) == [seg] + rest;
      assert ([seg] + rest)[1..] == rest;
      assert p == p[..n] + p[n..];
    }
  }

  /** An empty payload still produces exactly one header-only segment, with length 0 and PBF clear. */
  lemma EmptyPayloadSegment(h0: u8, h1: u8)
    ensures Segments(h0, h1, []) == [[WithPbf(h0, CompleteOrFinal), h1, 0]]
  {
    var empty: seq<u8> := [];
    assert Min(MAX_SEGMENT_PAYLOAD, 0) == 0;
    assert empty[..0] == [];
    assert [WithPbf(h0, CompleteOrFinal), h1, 0] + empty[..0] == [WithPbf(h0, CompleteOrFinal), h1, 0];
  }

  class NciWriter {
    /** The segments written to the socket so far, oldest first. */
    var socket: seq<seq<u8>>

    constructor ()
      ensures socket == []
    {
      socket := [];
    }

    /**
     * `NciWriter::write`: splits one NCI packet (a three-byte header and
     * its payload) into segments of at most 255 payload bytes, rewriting
     * the PBF bit and the length byte of each segment's header.
     */
    method Write(packet: seq<u8>)
      requires |packet| >= HEADER_SIZE
      modifies this
      ensures socket == old(socket) + Segments(packet[0], packet[1], packet[HEADER_SIZE..])
    {
      var h0, h1 := packet[0], packet[1];
      var header: seq<u8> := [h0, h1, 0];
      var rest := packet[HEADER_SIZE..];
      while true
        invariant |header| == HEADER_SIZE && header[1] == h1
        invariant header[0] / 0x20 == h0 / 0x20 && header[0] % 0x10 == h0 % 0x10
        invariant socket + Segments(h0, h1, rest) == old(socket) + Segments(h0, h1, packet[HEADER_SIZE..])
        decreases |rest|
      {
        // Each segment gets its own PBF bit and length byte.
        var chunkLength := Min(MAX_SEGMENT_PAYLOAD, |rest|);
        var pbf := if chunkLength < |rest| then Incomplete else CompleteOrFinal;
        WithPbfMasked(header[0], h0, pbf);
        WithPbfBits(header[0], pbf);
        header := [WithPbf(header[0], pbf), header[1], chunkLength];
        var segment := header + rest[..chunkLength];
        var later := if chunkLength == |rest| then [] else Segments(h0, h1, rest[chunkLength..]);
        assert Segments(h0, h1, rest) == [segment] + later;
        ConcatAssoc(socket, [segment], later);
        socket := socket + [segment];
        rest := rest[chunkLength..];
        if rest == [] {
          assert [segment] + later == [segment];
          return;
        }
      }
    }
  }

  // ---------------------------------------------------------------------------
  // Reassembly

  datatype ReadOutcome = Packet(packet: seq<u8>, rest: seq<u8>) | EndOfStream

  /**
   * What `NciReader::read` returns for a byte stream, given the payload
   * bytes gathered so far: it reads a header and that many payload bytes,
   * collects the payload, and stops at a segment whose PBF is clear. The
   * packet carries the LAST segment's header. A stream that ends inside a
   * segment is an error.
   */
  function Reassemble(s: seq<u8>, gathered: seq<u8>): (r: ReadOutcome)
    decreases |s|
  {
    if |s| < HEADER_SIZE then EndOfStream
    else
      var len := s[2];
      if |s| < HEADER_SIZE + len then EndOfStream
      else
        var payload := gathered + s[HEADER_SIZE..HEADER_SIZE + len];
        if PbfOf(s[0]) == CompleteOrFinal then Packet(s[..HEADER_SIZE] + payload, s[HEADER_SIZE + len..])
        else Reassemble(s[HEADER_SIZE + len..], payload)
  }

  /** The payload length of the last segment for a payload of n bytes. */
  function LastSegmentLength(n: nat): (r: nat)
    ensures r <= MAX_SEGMENT_PAYLOAD && (r == n || n > MAX_SEGMENT_PAYLOAD)
  {
    if n <= MAX_SEGMENT_PAYLOAD then n else LastSegmentLength(n - MAX_SEGMENT_PAYLOAD)
  }

  /** A stream that holds a whole segment is read one segment at a time. */
  lemma ReassembleUnfold(s: seq<u8>, gathered: seq<u8>)
    requires |s| >= HEADER_SIZE && |s| >= HEADER_SIZE + s[2]
    ensures var len := s[2];
      var payload := gathered + s[HEADER_SIZE..HEADER_SIZE + len];
      Reassemble(s, gathered) ==
        if PbfOf(s[0]) == CompleteOrFinal then Packet(s[..HEADER_SIZE] + payload, s[HEADER_SIZE + len..])
        else Reassemble(s[HEADER_SIZE + len..], payload)
  {
  }

  /** One step of reassembly: a complete segment at the front of the stream. */
  lemma ReassembleStep(b0: u8, b1: u8, chunk: seq<u8>, tail: seq<u8>, gathered: seq<u8>)
    requires |chunk| <= MAX_SEGMENT_PAYLOAD
    ensures var s := [b0, b1, |chunk|] + chunk + tail;
      Reassemble(s, gathered) ==
        if PbfOf(b0) == CompleteOrFinal then Packet([b0, b1, |chunk|] + (gathered + chunk), tail)
        else Reassemble(tail, gathered + chunk)
  {
    var s := [b0, b1, |chunk|] + chunk + tail;
    assert s[..HEADER_SIZE] == [b0, b1, |chunk|];
    assert s[HEADER_SIZE..HEADER_SIZE + |chunk|] == chunk;
    assert s[HEADER_SIZE + |chunk|..] == tail;
  }

  /** The concatenated segments of a payload start with its first segment. */
  lemma FlattenSegmentsFront(h0: u8, h1: u8, p: seq<u8>, rest: seq<u8>)
    ensures var n := Min(MAX_SEGMENT_PAYLOAD, |p|);
      var b0 := WithPbf(h0, if n < |p| then Incomplete else CompleteOrFinal);
      var tail := if n == |p| then [] else Flatten(Segments(h0, h1, p[n..]));
      Flatten(Segments(h0, h1, p)) + rest == [b0, h1, n] + p[..n] + (tail + rest)
  {
    var n := Min(MAX_SEGMENT_PAYLOAD, |p|);
    var b0 := WithPbf(h0, if n < |p| then Incomplete else CompleteOrFinal);
    var seg := [b0, h1, n] + p[..n];
    var tail := if n == |p| then [] else Segments(h0, h1, p[n..]);
    assert Segments(h0, h1, p) == [seg] + tail;
    FlattenAppend([seg], tail);
    assert Flatten([seg]) == seg by {
      assert [seg][1..] == [];
    }
  }

  /** A payload that fits one segment is read back in one step. */
  lemma ReassembleSingle(h0: u8, h1: u8, p: seq<u8>, gathered: seq<u8>, rest: seq<u8>)
    requires |p| <= MAX_SEGMENT_PAYLOAD
    ensures Reassemble(Flatten(Segments(h0, h1, p)) + rest, gathered)
         == Packet([WithPbf(h0, CompleteOrFinal), h1, |p|] + (gathered + p), rest)
  {
    FlattenSegmentsFront(h0, h1, p, rest);
    assert p[..|p|] == p;
    WithPbfBits(h0, CompleteOrFinal);
    ReassembleStep(WithPbf(h0, CompleteOrFinal), h1, p, rest, gathered);
  }

  /** A longer payload reads its first 255 bytes and continues with the remaining segments. */
  lemma ReassembleLonger(h0: u8, h1: u8, p: seq<u8>, gathered: seq<u8>, rest: seq<u8>)
    requires |p| > MAX_SEGMENT_PAYLOAD
    ensures Reassemble(Flatten(Segments(h0, h1, p)) + rest, gathered)
         == Reassemble(Flatten(Segments(h0, h1, p[MAX_SEGMENT_PAYLOAD..])) + rest, gathered + p[..MAX_SEGMENT_PAYLOAD])
  {
    FlattenSegmentsFront(h0, h1, p, rest);
    WithPbfBits(h0, Incomplete);
    ReassembleStep(WithPbf(h0, Incomplete), h1, p[..MAX_SEGMENT_PAYLOAD],
      Flatten(Segments(h0, h1, p[MAX_SEGMENT_PAYLOAD..])) + rest, gathered);
  }

  /**
   * Reading back what the writer segmented yields the original payload,
   * header bytes 0 and 1 with the PBF bit clear, and as byte 2 the length
   * of the last segment; the bytes after it are left unread.
   */
  lemma {:induction false} ReassembleSegments(h0: u8, h1: u8, p: seq<u8>, gathered: seq<u8>, rest: seq<u8>)
    ensures Reassemble(Flatten(Segments(h0, h1, p)) + rest, gathered)
         == Packet([WithPbf(h0, CompleteOrFinal), h1, LastSegmentLength(|p|)] + (gathered + p), rest)
    decreases |p|
  {
    if |p| <= MAX_SEGMENT_PAYLOAD {
      ReassembleSingle(h0, h1, p, gathered, rest);
    } else {
      var n := MAX_SEGMENT_PAYLOAD;
      var q, g := p[n..], gathered + p[..n];
      ReassembleLonger(h0, h1, p, gathered, rest);
      ReassembleSegments(h0, h1, q, g, rest);
      assert LastSegmentLength(|p|) == LastSegmentLength(|q|);
      assert g + q == gathered + p by {
        assert p[..n] + q == p;
      }
    }
  }

  /** Read after write: when the input's PBF bit is clear and its length byte matches, the packet comes back unchanged. */
  lemma ReadAfterWrite(packet: seq<u8>, rest: seq<u8>)
    requires |packet| >= HEADER_SIZE
    requires PbfOf(packet[0]) == CompleteOrFinal && packet[2] == LastSegmentLength(|packet| - HEADER_SIZE)
    ensures Reassemble(Flatten(Segments(packet[0], packet[1], packet[HEADER_SIZE..])) + rest, []) == Packet(packet, rest)
  {
    var p := packet[HEADER_SIZE..];
    ReassembleSegments(packet[0], packet[1], p, [], rest);
    WithPbfNoChange(packet[0], CompleteOrFinal);
    assert [] + p == p;
    HeaderSplit(packet);
  }

  /** A packet is its three header bytes followed by its payload. */
  lemma HeaderSplit(packet: seq<u8>)
    requires |packet| >= HEADER_SIZE
    ensures [packet[0], packet[1], packet[2]] + packet[HEADER_SIZE..] == packet
  {
  }

  class NciReader {
    /** The bytes still to be read from the socket. */
    var socket: seq<u8>

    constructor (incoming: seq<u8>)
      ensures socket == incoming
    {
      socket := incoming;
    }

    /**
     * `NciReader::read`: reads segments until one with a clear PBF bit and
     * returns the recombined packet; a stream that ends early is an error
     * and the bytes read are lost.
     */
    method Read() returns (r: Result<seq<u8>, ReadOutcome>)
      modifies this
      ensures Reassemble(old(socket), []).Packet? ==>
        r == Ok(Reassemble(old(socket), []).packet) && socket == Reassemble(old(socket), []).rest
      ensures Reassemble(old(socket), []).EndOfStream? ==> r == Err(EndOfStream) && socket == []
    {
      var completePacket: seq<u8> := [0, 0, 0];
      assert completePacket[HEADER_SIZE..] == [];
      while true
        invariant |completePacket| >= HEADER_SIZE
        invariant Reassemble(socket, completePacket[HEADER_SIZE..]) == Reassemble(old(socket), [])
        decreases |socket|
      {
        ghost var s, gathered := socket, completePacket[HEADER_SIZE..];
        // A stream too short for a three-byte header ends here.
        if |socket| < HEADER_SIZE {
          socket := [];
          return Err(EndOfStream);
        }
        var header := socket[..HEADER_SIZE];
        socket := socket[HEADER_SIZE..];
        // Byte 2 of the header gives the number of payload bytes that follow it.
        var payloadLength := header[2];
        if |socket| < payloadLength {
          socket := [];
          return Err(EndOfStream);
        }
        var payloadBytes := socket[..payloadLength];
        assert payloadBytes == s[HEADER_SIZE..HEADER_SIZE + payloadLength];
        assert header == s[..HEADER_SIZE] && header[0] == s[0];
        ReassembleUnfold(s, gathered);
        completePacket := header + completePacket[HEADER_SIZE..] + payloadBytes;
        assert completePacket[HEADER_SIZE..] == gathered + payloadBytes by {
          assert completePacket == header + (gathered + payloadBytes);
        }
        socket := socket[payloadLength..];
        assert socket == s[HEADER_SIZE + payloadLength..];
        // A clear PBF bit marks the last segment of the packet.
        if PbfOf(header[0]) == CompleteOrFinal {
          assert Reassemble(s, gathered) == Packet(completePacket, socket);
          return Ok(completePacket);
        }
      }
    }
  }

  // ---------------------------------------------------------------------------
  // Scene

  /**
   * What polling a device's controller task yields. `Controller::run` only
   * returns on an error, so a task is either still pending or has failed.
   */
  datatype TaskState = Pending | Failed

  /** A device slot's occupant: its slot id and the TCP connection it was created for. */
  datatype Device = Device(id: nat, connection: nat)

  /** One RF packet pushed into a device's RF channel. */
  datatype RfDelivery = RfDelivery(to: nat, packet: seq<u8>)

  /** The ids, in increasing order from `from`, of the occupied slots other than the sender's. */
  function Recipients(slots: seq<Option<Device>>, sender: nat, from: nat): seq<nat>
    requires from <= |slots|
    decreases |slots| - from
  {
    if from == |slots| then []
    else if from != sender && slots[from].Some? then [from] + Recipients(slots, sender, from + 1)
    else Recipients(slots, sender, from + 1)
  }

  /** The recipients are exactly the occupied slots other than the sender's, each once and in increasing order. */
  lemma {:induction false} RecipientsExact(slots: seq<Option<Device>>, sender: nat, from: nat)
    requires from <= |slots|
    ensures var r := Recipients(slots, sender, from);
      && (forall i :: i in r <==> from <= i < |slots| && i != sender && slots[i].Some?)
      && (forall j, k :: 0 <= j < k < |r| ==> r[j] < r[k])
    decreases |slots| - from
  {
    if from < |slots| {
      RecipientsExact(slots, sender, from + 1);
      var tail := Recipients(slots, sender, from + 1);
      if from != sender && slots[from].Some? {
        var r := [from] + tail;
        forall j, k | 0 <= j < k < |r|
          ensures r[j] < r[k]
        {
          if j == 0 {
            assert r[k] == tail[k - 1] && r[k] in tail;
          } else {
            assert r[j] == tail[j - 1] && r[k] == tail[k - 1];
          }
        }
      }
    }
  }

  /** One packet per recipient, in slot order. */
  function Deliveries(ids: seq<nat>, packet: seq<u8>): (ds: seq<RfDelivery>)
    ensures |ds| == |ids| && forall i :: 0 <= i < |ids| ==> ds[i] == RfDelivery(ids[i], packet)
  {
    if ids == [] then [] else [RfDelivery(ids[0], packet)] + Deliveries(ids[1..], packet)
  }

  class Scene {
    /** `devices: [Option<Device>; MAX_DEVICES]`. */
    const devices: array<Option<Device>>

    /** Every slot holds a device created with that slot's id. */
    ghost predicate Valid()
      reads this, devices
    {
      && devices.Length == MAX_DEVICES
      && forall i :: 0 <= i < MAX_DEVICES ==> devices[i].Some? ==> devices[i].value.id == i
    }

    constructor ()
      ensures Valid() && fresh(devices)
      ensures forall i :: 0 <= i < MAX_DEVICES ==> devices[i].None?
    {
      devices := new Option<Device>[MAX_DEVICES](_ => None);
    }

    /**
     * `Scene::add_device`: puts a new device in the lowest free slot and
     * returns its id; when both slots are taken nothing changes and the
     * connection is refused.
     */
    method AddDevice(connection: nat) returns (r: Result<nat, ()>)
      requires Valid()
      modifies devices
      ensures Valid()
      ensures r.Ok? ==>
        && r.value < MAX_DEVICES
        && old(devices[r.value]).None?
        && (forall i :: 0 <= i < r.value ==> old(devices[i]).Some?)
        && devices[r.value] == Some(Device(r.value, connection))
        && (forall i :: 0 <= i < MAX_DEVICES && i != r.value ==> devices[i] == old(devices[i]))
      ensures r.Err? <==> forall i :: 0 <= i < MAX_DEVICES ==> old(devices[i]).Some?
      ensures r.Err? ==> devices[..] == old(devices[..])
    {
      for id := 0 to MAX_DEVICES
        invariant forall i :: 0 <= i < id ==> devices[i].Some?
        invariant devices[..] == old(devices[..])
      {
        if devices[id].None? {
          devices[id] := Some(Device(id, connection));
          return Ok(id);
        }
      }
      return Err(());
    }

    /**
     * `Scene::poll`: polls each occupied slot's controller task, given
     * what each poll yields, and drops the devices whose task failed.
     */
    method Poll(states: seq<TaskState>)
      requires Valid() && |states| == MAX_DEVICES
      modifies devices
      ensures Valid()
      ensures forall i :: 0 <= i < MAX_DEVICES ==>
        devices[i] == if states[i] == Failed then None else old(devices[i])
    {
      for id := 0 to MAX_DEVICES
        invariant Valid()
        invariant forall i :: 0 <= i < id ==> devices[i] == if states[i] == Failed then None else old(devices[i])
        invariant forall i :: id <= i < MAX_DEVICES ==> devices[i] == old(devices[i])
      {
        if devices[id].Some? {
          match states[id]
          case Failed =>
            devices[id] := None;
          case Pending =>
        }
      }
    }

    /**
     * `Scene::send`: forwards an RF packet to every device except its
     * sender, in slot order. The table is not changed.
     */
    method Send(senderId: nat, packet: seq<u8>) returns (ds: seq<RfDelivery>)
      requires Valid()
      ensures ds == Deliveries(Recipients(devices[..], senderId, 0), packet)
    {
      ds := [];
      for id := 0 to MAX_DEVICES
        invariant ds + Deliveries(Recipients(devices[..], senderId, id), packet)
               == Deliveries(Recipients(devices[..], senderId, 0), packet)
      {
        if id == senderId {
          continue;
        }
        if devices[id].Some? {
          ds := ds + [RfDelivery(id, packet)];
        }
      }
      assert Recipients(devices[..], senderId, MAX_DEVICES) == [];
    }
  }

  /** A packet sent by one device reaches every other device present, once, and never its sender. */
  lemma SendReachesOthers(slots: seq<Option<Device>>, senderId: nat, packet: seq<u8>, i: nat)
    requires |slots| == MAX_DEVICES
    ensures var ds := Deliveries(Recipients(slots, senderId, 0), packet);
      && (RfDelivery(i, packet) in ds <==> i < MAX_DEVICES && i != senderId && slots[i].Some?)
      && (forall d :: d in ds ==> d.packet == packet && d.to != senderId)
  {
    var ids := Recipients(slots, senderId, 0);
    var ds := Deliveries(ids, packet);
    RecipientsExact(slots, senderId, 0);
    if RfDelivery(i, packet) in ds {
      var k :| 0 <= k < |ds| && ds[k] == RfDelivery(i, packet);
      assert ids[k] == i && ids[k] in ids;
    }
    if i < MAX_DEVICES && i != senderId && slots[i].Some? {
      assert i in ids;
      var k :| 0 <= k < |ids| && ids[k] == i;
      assert ds[k] == RfDelivery(i, packet);
    }
    forall d | d in ds
      ensures d.packet == packet && d.to != senderId
    {
      var k :| 0 <= k < |ds| && ds[k] == d;
      assert ids[k] in ids;
    }
  }
}
