/** The server thread: the two packet builders and the rule in `run()` that
    picks the response to a request. */
module ServerThread {
  import opened JavaInt
  import BlockNumber
  import opened Packets

  /** The request words the thread is constructed with. */
  const Read: string := "READ"
  const Write: string := "WRITE"

  /** What `run()` ends with: the bytes handed to the socket, or the
      out-of-bounds read that stops the thread before anything is sent. */
  datatype Outcome = Sent(bytes: seq<Byte>) | IndexOutOfBounds(index: int)

  /** Builds the 516-byte DATA packet into a new array, copying the first 512
      bytes of the incoming datagram's buffer one by one. */
  method CreateDataPacket(blockNumber: Int32, buffer: seq<Byte>) returns (data: array<Byte>)
    requires |buffer| >= PayloadSize
    ensures fresh(data)
    ensures data.Length == DataPacketSize
    ensures data[0] == 0 && data[1] == OpcodeData
    ensures data[2] == (blockNumber / 16) % 256
    ensures data[3] == blockNumber % 16
    ensures forall i :: 0 <= i < PayloadSize ==> data[4 + i] == buffer[i]
    ensures data[..] == DataPacket(blockNumber, buffer)
  {
    data := new Byte[DataPacketSize](_ => 0);
    data[0] := 0;
    data[1] := OpcodeData;
    data[2] := Low8(ShiftRight4(blockNumber));
    data[3] := Low8(Mask4(blockNumber));
    var i := 0;
    while i < PayloadSize
      invariant 0 <= i <= PayloadSize
      invariant data.Length == DataPacketSize
      invariant data[..4] == [0, OpcodeData] + BlockNumber.Encode(blockNumber)
      invariant forall k :: 0 <= k < i ==> data[4 + k] == buffer[k]
    {
      data[4 + i] := buffer[i];
      i := i + 1;
    }
    assert data[..] == data[..4] + data[4..];
    assert data[4..] == buffer[..PayloadSize];
  }

  /** Builds the 4-byte ACK packet into a new array. */
  method CreateAckPacket(blockNumber: Int32) returns (data: array<Byte>)
    ensures fresh(data)
    ensures data.Length == AckPacketSize
    ensures data[0] == 0 && data[1] == OpcodeAck
    ensures data[2] == (blockNumber / 16) % 256
    ensures data[3] == blockNumber % 16
    ensures data[..] == AckPacket(blockNumber)
  {
    data := new Byte[AckPacketSize](_ => 0);
    data[0] := 0;
    data[1] := OpcodeAck;
    data[2] := Low8(ShiftRight4(blockNumber));
    data[3] := Low8(Mask4(blockNumber));
  }

  /** The response `run()` settles on. "READ" is checked first and answered
      with a DATA packet, which needs 512 readable buffer bytes; "WRITE" is
      answered with an ACK; any other word leaves the zero-filled buffer. */
  function Respond(message: string, blockNumber: Int32, buffer: seq<Byte>): (r: Outcome)
    ensures r.IndexOutOfBounds? <==> message == Read && |buffer| < PayloadSize
    ensures r.IndexOutOfBounds? ==> r.index == |buffer|
    ensures r.Sent? ==> |r.bytes| == (if message == Write then AckPacketSize else DataPacketSize)
  {
    if message == Read then
      if |buffer| < PayloadSize then IndexOutOfBounds(|buffer|)
      else Sent(DataPacket(blockNumber, buffer))
    else if message == Write then
      Sent(AckPacket(blockNumber))
    else
      Sent(ZeroResponse())
  }

  /** The packet kind sent matches the request word: a READ is answered by
      DATA carrying the block number modulo 4096 and the buffer's first 512
      bytes, a WRITE by an ACK carrying the block number modulo 4096, and
      nothing else by a TFTP packet. */
  lemma ResponseMatchesRequest(message: string, blockNumber: Int32, buffer: seq<Byte>)
    ensures message == Read && |buffer| >= PayloadSize ==>
      Respond(message, blockNumber, buffer).Sent? &&
      Parse(Respond(message, blockNumber, buffer).bytes) == Some(Data(blockNumber % 4096, buffer[..PayloadSize]))
    ensures message == Write ==>
      Respond(message, blockNumber, buffer).Sent? &&
      Parse(Respond(message, blockNumber, buffer).bytes) == Some(Ack(blockNumber % 4096))
    ensures message != Read && message != Write ==>
      Respond(message, blockNumber, buffer).Sent? &&
      Parse(Respond(message, blockNumber, buffer).bytes) == None
  {
    if message == Read {
      if |buffer| >= PayloadSize {
        ParseDataPacket(blockNumber, buffer);
      }
    } else if message == Write {
      ParseAckPacket(blockNumber);
    } else {
      ParseZeroResponse();
    }
  }

  /** `run()` up to the point where the response is handed to the socket. */
  method Run(message: string, blockNumber: Int32, buffer: seq<Byte>) returns (outcome: Outcome)
    ensures outcome == Respond(message, blockNumber, buffer)
  {
    var response := new Byte[DataPacketSize](_ => 0);
    if message == Read {
      if |buffer| < PayloadSize {
        return IndexOutOfBounds(|buffer|);
      }
      response := CreateDataPacket(blockNumber, buffer);
    } else if message == Write {
      response := CreateAckPacket(blockNumber);
    }
    outcome := Sent(response[..]);
  }
}
