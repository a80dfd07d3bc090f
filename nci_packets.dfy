/**
 * The NCI packet vocabulary both Rust code bases use: the Packet Boundary
 * Flag, the status codes, the RF protocol and technology enumerations, and
 * the data packet with its three-byte header. The generated packet crates
 * are not part of this model; the codes below follow the tables of NFC
 * Forum NCI (Status Codes, RF Protocols, Data Packet Format).
 */
module NciPackets {
  import opened Bytes

  /** Packet Boundary Flag: `Incomplete` marks a segment that more segments follow. */
  datatype PacketBoundaryFlag = CompleteOrFinal | Incomplete

  /** The flag's value in bit 4 of header byte 0. */
  function PbfBit(pbf: PacketBoundaryFlag): (b: u8)
    ensures b == 1 <==> pbf.Incomplete?
    ensures b <= 1
  {
    match pbf
    case CompleteOrFinal => 0
    case Incomplete => 1
  }

  /** The status codes the emulated controller answers with. */
  datatype Status = StatusOk | StatusRejected | StatusInvalidParam

  /** RF protocols (`nci::RfProtocolType`). */
  datatype RfProtocolType = Undetermined | T1t | T2t | T3t | IsoDep | NfcDep | T5t | Ndef

  /** The protocol's code in the RF Protocols table. */
  function RfProtocolTypeCode(p: RfProtocolType): (b: u8)
    ensures b <= 0x07
  {
    match p
    case Undetermined => 0x00
    case T1t => 0x01
    case T2t => 0x02
    case T3t => 0x03
    case IsoDep => 0x04
    case NfcDep => 0x05
    case T5t => 0x06
    case Ndef => 0x07
  }

  /** The generated `RfProtocolType::try_from(u8)`: a code outside the table is an error. */
  function RfProtocolTypeFromCode(b: u8): (r: Option<RfProtocolType>)
    ensures r.Some? <==> b <= 0x07
    ensures r.Some? ==> RfProtocolTypeCode(r.value) == b
  {
    if b == 0x00 then Some(Undetermined)
    else if b == 0x01 then Some(T1t)
    else if b == 0x02 then Some(T2t)
    else if b == 0x03 then Some(T3t)
    else if b == 0x04 then Some(IsoDep)
    else if b == 0x05 then Some(NfcDep)
    else if b == 0x06 then Some(T5t)
    else if b == 0x07 then Some(Ndef)
    else None
  }

  lemma RfProtocolTypeCodeRoundTrip(p: RfProtocolType)
    ensures RfProtocolTypeFromCode(RfProtocolTypeCode(p)) == Some(p)
  {
  }

  /**
   * RF technology and mode (`nci::RfTechnologyAndMode`). The seven values a
   * conversion names are spelled out; `Unlisted` stands for each of the
   * enumeration's other values, identified by its code.
   */
  datatype RfTechnologyAndMode =
    | NfcAPassivePollMode | NfcAPassiveListenMode
    | NfcBPassivePollMode | NfcBPassiveListenMode
    | NfcFPassivePollMode | NfcFPassiveListenMode
    | NfcVPassivePollMode
    | Unlisted(code: u8)

  /** The fields of an NCI data packet. */
  datatype DataPacketFields = DataPacket(connId: u8, pbf: PacketBoundaryFlag, cr: u8, payload: seq<u8>)

  /** A data packet as the packet parser produces it: a 4-bit Conn ID, a 2-bit credit count, at most 255 payload bytes. */
  type DataPacket = p: DataPacketFields | p.connId < 0x10 && p.cr < 0x04 && |p.payload| < 0x100
    witness DataPacket(0, CompleteOrFinal, 0, [])

  /** `to_bytes`: the header (MT 000b, PBF, Conn ID; CR; payload length) followed by the payload. */
  function ToBytes(p: DataPacket): (b: seq<u8>)
    ensures |b| == 3 + |p.payload| && b[3..] == p.payload
  {
    [PbfBit(p.pbf) * 0x10 + p.connId, p.cr, |p.payload|] + p.payload
  }

  /** The data-packet parser: the inverse of `ToBytes` on the packets it accepts. */
  function ParseDataPacket(b: seq<u8>): (r: Option<DataPacket>)
    ensures r.Some? ==> ToBytes(r.value) == b
  {
    if |b| < 3 || b[0] / 0x20 != 0 || b[1] >= 0x04 || b[2] != |b| - 3 then None
    else
      var pbf := if (b[0] / 0x10) % 2 == 1 then Incomplete else CompleteOrFinal;
      Some(DataPacket(b[0] % 0x10, pbf, b[1], b[3..]))
  }

  lemma DataPacketRoundTrip(p: DataPacket)
    ensures ParseDataPacket(ToBytes(p)) == Some(p)
  {
    var b := ToBytes(p);
    assert b[0] == PbfBit(p.pbf) * 0x10 + p.connId;
  }
}
