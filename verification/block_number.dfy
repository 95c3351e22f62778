/** The two block-number bytes written at offsets 2 and 3 of both the DATA and
    the ACK packet, and the standard 16-bit big-endian pair they stand in for. */
module BlockNumber {
  import opened JavaInt

  /** The pair the server writes: `(byte)(blockNumber >> 4)` followed by
      `(byte)(blockNumber & 0x0F)`, a base-16 split. */
  function Encode(blockNumber: Int32): (r: seq<Byte>)
    ensures |r| == 2
    ensures r[1] < 16
  {
    [Low8(ShiftRight4(blockNumber)), Low8(Mask4(blockNumber))]
  }

  /** The number a receiver recovers from such a pair under the same base-16
      convention: the high byte counts sixteens. */
  function Decode(pair: seq<Byte>): int
    requires |pair| == 2
  {
    pair[0] as int * 16 + pair[1]
  }

  /** The block-number pair of section 5 of RFC 1350: the 16-bit block number,
      high byte first. */
  function RfcEncode(blockNumber: Int32): (r: seq<Byte>)
    ensures |r| == 2
  {
    [Low8(blockNumber / 256), Low8(blockNumber)]
  }

  /** Reading a big-endian 16-bit pair. */
  function RfcDecode(pair: seq<Byte>): int
    requires |pair| == 2
  {
    pair[0] as int * 256 + pair[1]
  }

  /** The bytes of the base-16 pair in terms of the low 12 bits of the block
      number: its sixteens, then its units. */
  lemma EncodeDigits(blockNumber: Int32)
    ensures Encode(blockNumber)[0] == (blockNumber % 4096) / 16
    ensures Encode(blockNumber)[1] == (blockNumber % 4096) % 16
  {
    var q, r := blockNumber / 4096, blockNumber % 4096;
    var h, l := r / 16, r % 16;
    DivMod16(blockNumber, 256 * q + h, l);
    DivMod256(256 * q + h, q, h);
  }

  /** The base-16 pair keeps exactly the low 12 bits of the block number. */
  lemma EncodeKeepsLow12Bits(blockNumber: Int32)
    ensures Decode(Encode(blockNumber)) == blockNumber % 4096
  {
    EncodeDigits(blockNumber);
  }

  /** For block numbers 0..4095 the pair round-trips. */
  lemma RoundTripBelow4096(blockNumber: Int32)
    requires 0 <= blockNumber < 4096
    ensures Decode(Encode(blockNumber)) == blockNumber
  {}

  /** Two block numbers get the same pair exactly when they agree modulo 4096:
      block 4096 is written as block 0, block 4097 as block 1, and so on. */
  lemma SamePairIff(a: Int32, b: Int32)
    ensures Encode(a) == Encode(b) <==> a % 4096 == b % 4096
  {
    EncodeKeepsLow12Bits(a);
    EncodeKeepsLow12Bits(b);
  }

  /** The big-endian pair keeps exactly the low 16 bits. */
  lemma RfcKeepsLow16Bits(blockNumber: Int32)
    ensures RfcDecode(RfcEncode(blockNumber)) == blockNumber % 65536
  {
    var q, r := blockNumber / 65536, blockNumber % 65536;
    var h, l := r / 256, r % 256;
    DivMod256(blockNumber, 256 * q + h, l);
    DivMod256(256 * q + h, q, h);
  }

  /** The RFC 1350 pair gives back every 16-bit block number. */
  lemma RfcRoundTrip(blockNumber: Int32)
    requires 0 <= blockNumber < 65536
    ensures RfcDecode(RfcEncode(blockNumber)) == blockNumber
  {
    RfcKeepsLow16Bits(blockNumber);
  }

  /** Where the two pairs part ways on the protocol's 16-bit block numbers:
      two different block numbers that agree modulo 4096 (block 0 and block
      4096, say) get the same base-16 pair but different RFC 1350 pairs. */
  lemma EncodeConflatesWhatRfcSeparates(a: Int32, b: Int32)
    requires 0 <= a < b < 65536 && a % 4096 == b % 4096
    ensures Encode(a) == Encode(b)
    ensures RfcEncode(a) != RfcEncode(b)
  {
    SamePairIff(a, b);
    RfcRoundTrip(a);
    RfcRoundTrip(b);
  }

  /** Below 16 the two pairs are both `{0, blockNumber}`. */
  lemma AgreesWithRfcBelow16(blockNumber: Int32)
    requires 0 <= blockNumber < 16
    ensures Encode(blockNumber) == RfcEncode(blockNumber) == [0, blockNumber as Byte]
  {}

  /** A byte value other than zero is never sixteen times its own low nibble. */
  lemma NotSixteenTimesLowNibble(a: int)
    requires 0 < a < 256
    ensures 16 * (a % 16) != a
  {
    DivMod16(a, a / 16, a % 16);
  }

  /** The bytes of the big-endian pair, as numbers. */
  lemma RfcDigits(blockNumber: Int32)
    requires 0 <= blockNumber < 65536
    ensures RfcEncode(blockNumber)[0] == blockNumber / 256
    ensures RfcEncode(blockNumber)[1] == blockNumber % 256
  {
    DivMod256(blockNumber / 256, 0, blockNumber / 256);
  }

  /** From 16 up to 65535 the two pairs differ. */
  lemma DisagreesWithRfcFrom16(blockNumber: Int32)
    requires 16 <= blockNumber < 65536
    ensures Encode(blockNumber) != RfcEncode(blockNumber)
  {
    var a, b, c := blockNumber / 256, (blockNumber % 256) / 16, blockNumber % 16;
    assert blockNumber == 256 * a + 16 * b + c && 0 <= b < 16 && 0 <= c < 16 by {
      DivMod16(blockNumber % 256, b, (blockNumber % 256) % 16);
      DivMod16(blockNumber, 16 * a + b, (blockNumber % 256) % 16);
    }
    assert a < 256;
    EncodeDigits(blockNumber);
    RfcDigits(blockNumber);
    var lowA := a % 16;
    assert blockNumber % 4096 == 256 * lowA + 16 * b + c by {
      DivMod16(a, a / 16, lowA);
      DivMod4096(blockNumber, a / 16, 256 * lowA + 16 * b + c);
    }
    assert Encode(blockNumber)[0] == 16 * lowA + b by {
      DivMod16(256 * lowA + 16 * b + c, 16 * lowA + b, c);
    }
    assert Encode(blockNumber)[1] == c by {
      DivMod16(256 * lowA + 16 * b + c, 16 * lowA + b, c);
    }
    assert RfcEncode(blockNumber)[1] == 16 * b + c by {
      DivMod256(blockNumber, a, 16 * b + c);
    }
    if b != 0 {
      assert Encode(blockNumber)[1] != RfcEncode(blockNumber)[1];
    } else {
      assert RfcEncode(blockNumber)[0] == a by {
        DivMod256(blockNumber, a, c);
      }
      NotSixteenTimesLowNibble(a);
      assert Encode(blockNumber)[0] != RfcEncode(blockNumber)[0];
    }
  }

  /** On the 16-bit block numbers of the protocol, the server's pair coincides
      with the RFC 1350 pair exactly for block numbers below 16. */
  lemma AgreesWithRfcIff(blockNumber: Int32)
    requires 0 <= blockNumber < 65536
    ensures Encode(blockNumber) == RfcEncode(blockNumber) <==> blockNumber < 16
  {
    if blockNumber < 16 {
      AgreesWithRfcBelow16(blockNumber);
    } else {
      DisagreesWithRfcFrom16(blockNumber);
    }
  }
}
