/** The byte layouts of the three responses the server thread can send, as
    values, and the inverse reading of them a receiver would apply. */
module Packets {
  import opened JavaInt
  import BlockNumber

  /** Bytes of file data carried by one DATA packet. */
  const PayloadSize: nat := 512
  /** Opcode, two block-number bytes and the payload. */
  const DataPacketSize: nat := PayloadSize + 4
  /** Opcode and two block-number bytes. */
  const AckPacketSize: nat := 4
  /** Low opcode bytes of section 5 of RFC 1350; the high byte is 0. */
  const OpcodeData: Byte := 3
  const OpcodeAck: Byte := 4

  /** The DATA packet: opcode `{0, 3}`, the block-number pair, then the first
      512 bytes of the incoming datagram's buffer. */
  function DataPacket(blockNumber: Int32, buffer: seq<Byte>): (r: seq<Byte>)
    requires |buffer| >= PayloadSize
    ensures |r| == DataPacketSize
    ensures r[0] == 0 && r[1] == OpcodeData && r[3] < 16
  {
    [0, OpcodeData] + BlockNumber.Encode(blockNumber) + buffer[..PayloadSize]
  }

  /** The ACK packet: opcode `{0, 4}` and the block-number pair. */
  function AckPacket(blockNumber: Int32): (r: seq<Byte>)
    ensures |r| == AckPacketSize
    ensures r[0] == 0 && r[1] == OpcodeAck && r[3] < 16
  {
    [0, OpcodeAck] + BlockNumber.Encode(blockNumber)
  }

  /** The response buffer as allocated, before either builder fills it. */
  function ZeroResponse(): (r: seq<Byte>)
    ensures |r| == DataPacketSize
    ensures forall i :: 0 <= i < |r| ==> r[i] == 0
  {
    seq(DataPacketSize, _ => 0)
  }

  datatype Option<T> = None | Some(value: T)

  /** A DATA or ACK packet as a receiver understands it. */
  datatype Packet = Data(block: int, payload: seq<Byte>) | Ack(block: int)

  /** Reads a datagram as DATA (opcode `{0, 3}`, at least four bytes) or as ACK
      (opcode `{0, 4}`, exactly four bytes), with the block number read back
      under the server's base-16 convention; anything else is not one of them. */
  function Parse(datagram: seq<Byte>): (r: Option<Packet>)
    ensures r.Some? ==> |datagram| >= 4 && datagram[0] == 0
    ensures r.Some? && r.value.Data? ==> |r.value.payload| == |datagram| - 4
  {
    if |datagram| >= 4 && datagram[0] == 0 && datagram[1] == OpcodeData then
      Some(Data(BlockNumber.Decode(datagram[2..4]), datagram[4..]))
    else if |datagram| == AckPacketSize && datagram[0] == 0 && datagram[1] == OpcodeAck then
      Some(Ack(BlockNumber.Decode(datagram[2..4])))
    else
      None
  }

  /** Reading a DATA packet back gives block number modulo 4096 and exactly the
      first 512 bytes of the buffer. */
  lemma ParseDataPacket(blockNumber: Int32, buffer: seq<Byte>)
    requires |buffer| >= PayloadSize
    ensures |DataPacket(blockNumber, buffer)| == DataPacketSize
    ensures Parse(DataPacket(blockNumber, buffer)) == Some(Data(blockNumber % 4096, buffer[..PayloadSize]))
  {
    var p := DataPacket(blockNumber, buffer);
    assert p[2..4] == BlockNumber.Encode(blockNumber);
    assert p[4..] == buffer[..PayloadSize];
    BlockNumber.EncodeKeepsLow12Bits(blockNumber);
  }

  /** Reading an ACK packet back gives the block number modulo 4096. */
  lemma ParseAckPacket(blockNumber: Int32)
    ensures |AckPacket(blockNumber)| == AckPacketSize
    ensures Parse(AckPacket(blockNumber)) == Some(Ack(blockNumber % 4096))
  {
    var p := AckPacket(blockNumber);
    assert p[2..4] == BlockNumber.Encode(blockNumber);
    BlockNumber.EncodeKeepsLow12Bits(blockNumber);
  }

  /** The unfilled response carries opcode 0, which is neither DATA nor ACK. */
  lemma ParseZeroResponse()
    ensures Parse(ZeroResponse()) == None
  {
    assert ZeroResponse()[1] == 0;
  }

  /** Bytes of the buffer past index 511 never reach the DATA packet. */
  lemma DataPacketIgnoresTail(blockNumber: Int32, buffer: seq<Byte>, other: seq<Byte>)
    requires |buffer| >= PayloadSize && |other| >= PayloadSize
    ensures DataPacket(blockNumber, buffer) == DataPacket(blockNumber, other)
        <==> buffer[..PayloadSize] == other[..PayloadSize]
  {
    if DataPacket(blockNumber, buffer) == DataPacket(blockNumber, other) {
      assert DataPacket(blockNumber, buffer)[4..] == buffer[..PayloadSize];
      assert DataPacket(blockNumber, other)[4..] == other[..PayloadSize];
    }
  }

  /** The header bytes in the builders' doc comments hold: a DATA packet for
      block 1 starts `{0, 3, 0, 1}` and the ACK for block 0 is `{0, 4, 0, 0}`.
      The DATA comment's return size `byte[4]` does not: the packet is 516
      bytes long. */
  lemma DocumentedHeaders(buffer: seq<Byte>)
    requires |buffer| >= PayloadSize
    ensures DataPacket(1, buffer)[..4] == [0, 3, 0, 1]
    ensures |DataPacket(1, buffer)| == DataPacketSize != 4
    ensures AckPacket(0) == [0, 4, 0, 0]
  {
    BlockNumber.AgreesWithRfcBelow16(1);
    BlockNumber.AgreesWithRfcBelow16(0);
  }
}
