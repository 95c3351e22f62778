# TFTP-style server thread: packet builders and response choice

This project models the server thread of a small TFTP-style file-transfer
server (`src/iteration1/serverThread.java`). Each thread is made from an
incoming datagram, a request word (`"READ"` or `"WRITE"`) and a block number.
It builds one response and sends it back to the client's port:

- for `"READ"`, a 516-byte DATA packet: opcode `{0, 3}`, two block-number
  bytes, and the first 512 bytes of the incoming datagram's buffer;
- for `"WRITE"`, a 4-byte ACK packet: opcode `{0, 4}` and the two
  block-number bytes;
- for any other word, the response buffer as allocated: 516 zero bytes.

The opcodes are those of section 5 of RFC 1350 (DATA = 3, ACK = 4). The
block-number bytes are not. RFC 1350 writes the 16-bit block number high byte
first. The code writes `(byte)(blockNumber >> 4)` and then
`(byte)(blockNumber & 0x0F)`, which is a base-16 split. The model follows
the code. It proves exactly
where the two agree: below block 16, and nowhere else in 0..65535
(`BlockNumber.AgreesWithRfcIff`).

Modules, one per concern:

- `JavaInt` (`java_int.dfy`): Java's 32-bit `int` as a subset type, `>> 4`
  as floor division by 16, `& 0x0F` as the non-negative remainder mod 16, and
  the `(byte)` cast as "keep the low 8 bits". A byte is its 8-bit pattern
  read as an unsigned number in 0..255 (`Byte`), so the Java byte -1 is 255.
- `BlockNumber` (`block_number.dfy`): the two block-number bytes and how to
  read them back. It also holds the RFC 1350 pair as a reference definition.
- `Packets` (`packets.dfy`): the DATA, ACK and zero-filled layouts as byte
  sequences, and `Parse`, the inverse reading a receiver would apply.
- `ServerThread` (`server_thread.dfy`): the array-building methods
  `CreateDataPacket` and `CreateAckPacket`. It also holds the choice made in
  `run()`, both as the function `Respond` and as the method `Run`.

The block number is any Java `int`, not only 0..65535. Facts that hold only
on a range carry that range as a precondition. The incoming datagram is
modelled by the byte buffer that `getData()` returns, taken as a snapshot
when the thread runs. It is a value, so the builders cannot change it. In
the source they only read it.

A `"READ"` thread whose buffer holds fewer than 512 bytes reads
`getData()[|buffer|]` inside the copy loop. That throws
`ArrayIndexOutOfBoundsException` and ends the thread before any socket is made.
`Respond` and `Run` model this as `IndexOutOfBounds(|buffer|)`: nothing is
sent.

## Model

| member | source | states |
|---|---|---|
| `JavaInt.ShiftRight4` | src/iteration1/serverThread.java:85 | Java's `blockNumber >> 4` rounds down: the result r satisfies 16r <= x < 16r + 16, negatives included |
| `JavaInt.Mask4` | src/iteration1/serverThread.java:86 | Java's `blockNumber & 0x0F` is in 0..15 and differs from the block number by a multiple of 16, so it is the low four bits |
| `JavaInt.Low8` | src/iteration1/serverThread.java:103-104 | Java's `(byte)` cast gives a byte (0..255 as a bit pattern) that agrees with its argument modulo 256, so it keeps the low 8 bits |
| `BlockNumber.Encode` | src/iteration1/serverThread.java:85-86 | the block-number field is two bytes, and the second, `blockNumber & 0x0F`, is always below 16 |
| `BlockNumber.EncodeKeepsLow12Bits` | src/iteration1/serverThread.java:85-86 | reading the pair back as high*16 + low gives the block number modulo 4096, for every Java int, negatives included |
| `BlockNumber.RoundTripBelow4096` | src/iteration1/serverThread.java:85-86 | for block numbers 0..4095 the pair reads back as exactly the block number |
| `BlockNumber.SamePairIff` | src/iteration1/serverThread.java:85-86 | two block numbers are written as the same pair if and only if they agree modulo 4096, so block 4096 is indistinguishable from block 0 |
| `BlockNumber.RfcRoundTrip` | src/iteration1/serverThread.java:85-86 | the RFC 1350 pair, the standard the code's two bytes stand in for, reads back as exactly the block number for every block number 0..65535 |
| `BlockNumber.EncodeConflatesWhatRfcSeparates` | src/iteration1/serverThread.java:85-86 | any two different block numbers in 0..65535 that agree modulo 4096 get the same pair from the code but different RFC 1350 pairs |
| `BlockNumber.AgreesWithRfcBelow16` | src/iteration1/serverThread.java:85-86 | for block numbers 0..15 the pair is `{0, blockNumber}`, the same as the RFC 1350 big-endian pair |
| `BlockNumber.DisagreesWithRfcFrom16` | src/iteration1/serverThread.java:85-86 | for block numbers 16..65535 the pair differs from the RFC 1350 big-endian pair |
| `BlockNumber.AgreesWithRfcIff` | src/iteration1/serverThread.java:103-104 | on 0..65535 the pair equals the RFC 1350 pair if and only if the block number is below 16 |
| `Packets.DataPacket` | src/iteration1/serverThread.java:82-90 | the DATA layout is 516 bytes, opens with opcode bytes 0 and 3, and its second block byte is below 16 |
| `Packets.AckPacket` | src/iteration1/serverThread.java:100-104 | the ACK layout is 4 bytes, opens with opcode bytes 0 and 4, and its second block byte is below 16 |
| `Packets.ZeroResponse` | src/iteration1/serverThread.java:36 | the response buffer as allocated is 516 bytes, all zero |
| `Packets.ParseDataPacket` | src/iteration1/serverThread.java:82-92 | the DATA packet is 516 bytes, and reads back as DATA with the block number modulo 4096 and exactly the buffer's first 512 bytes as payload |
| `Packets.ParseAckPacket` | src/iteration1/serverThread.java:100-106 | the ACK packet is 4 bytes, and reads back as ACK with the block number modulo 4096 |
| `Packets.ParseZeroResponse` | src/iteration1/serverThread.java:36 | the unfilled 516-byte response has opcode 0 and reads as neither DATA nor ACK |
| `Packets.DataPacketIgnoresTail` | src/iteration1/serverThread.java:88-90 | two buffers give the same DATA packet if and only if their first 512 bytes agree; later bytes are ignored |
| `Packets.DocumentedHeaders` | src/iteration1/serverThread.java:77-98 | the header bytes in the doc comments hold: DATA for block 1 starts `{0,3,0,1}`, and the ACK for block 0 is `{0,4,0,0}`; the DATA comment's return size `byte[4]` does not, because the DATA packet is 516 bytes |
| `ServerThread.CreateDataPacket` | src/iteration1/serverThread.java:81-93 | the array is freshly allocated and has length 516, opcode bytes 0 and 3, block bytes `(blockNumber/16) mod 256` and `blockNumber mod 16`, and `data[4+i] == buffer[i]` for every i below 512; it equals the DATA layout |
| `ServerThread.CreateAckPacket` | src/iteration1/serverThread.java:99-107 | the array is freshly allocated and has length 4, opcode bytes 0 and 4, and the same two block bytes; it equals the ACK layout |
| `ServerThread.Respond` | src/iteration1/serverThread.java:35-43 | the thread faults if and only if the word is "READ" and the buffer is shorter than 512, at index `|buffer|`; otherwise it sends 4 bytes for "WRITE" and 516 bytes for anything else |
| `ServerThread.ResponseMatchesRequest` | src/iteration1/serverThread.java:36-43 | "READ" (with 512 readable bytes) is answered by DATA carrying the block number modulo 4096 and the buffer's first 512 bytes; "WRITE" by an ACK carrying the block number modulo 4096; any other word by bytes that are no DATA or ACK packet |
| `ServerThread.Run` | src/iteration1/serverThread.java:35-62 | the imperative `run()`, from allocating the zero-filled buffer to choosing the bytes to send, produces the outcome `Respond` defines |

## Left out

- Socket creation, `InetAddress.getLocalHost()`, the destination port taken
  from `receivePacket.getPort()`, `send` and `close` (lines 46-76): network
  I/O. `Run` stops at the bytes handed to the datagram.
- `System.exit` and `printStackTrace` after a socket or I/O exception: process
  control around I/O that is not modelled.
- `printSend` and `printInfo` (lines 110-128): console output only.
- Running as a `Thread`, and the sharing that comes with it. The thread keeps
  the caller's `DatagramPacket` by reference (lines 29-31), and the copy loop
  calls `getData()` afresh on each of its 512 rounds (line 89). That is the
  packet's live backing array, which the creating thread still holds. The
  model reads one fixed snapshot of the buffer. A creator that refills the
  same packet while the copy runs is not modelled.
- A null `message`: `message.equals(read)` would throw
  `NullPointerException`. The model's `message` is always a string.
- A null `receivePacket`: it would throw `NullPointerException` at line 89
  for "READ" and at line 56 otherwise, and nothing would be sent. The model's
  buffer always exists.
- The bytes written into the DATA array before an out-of-bounds read: that
  array is dropped with the exception, so nothing observable depends on them.
- The datagram's offset and length: `getData()` returns the whole backing
  buffer whatever they are. The model's buffer is that whole buffer.
- The unused byte constants `zero`, `one` and `two` (lines 14-16).
- Multi-block transfers, retransmission, duplicate handling, request decoding
  and ERROR packets: the server thread has none of them.
- The client in `Jack Iteration 0 SYSC 3303/src/echo/Client.java` builds
  requests and is not part of this model.
