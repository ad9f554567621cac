# XBeeNG API-mode framing, in Dafny

This project models the core of the XBeeNG Arduino library for Digi XBee
radios in API mode with escaping (`AP=2`). It then proves properties of
that model. The modelled parts are:

- **The API frame (`XBeeApiFrame`).** A class with the two length bytes,
  the frame type `cmdId`, the payload buffer `cmdData`, the checksum, and the
  decoder's `ready` flag and error code. `setChecksum()` is proved to compute
  the one byte that makes `cmdId`, the payload and the checksum sum to 0xFF.
  Both `setFrameDataLength` and `setCmdDataLength` are modelled with their
  16-bit arithmetic.
- **The encoder (`send` / `sendByte`).** `Encode` is a pure function from
  a frame to its wire bytes. `Radio.XBee.Send` is the source's loop, proved
  to produce exactly `Encode`. Escaping is proved to be undone by
  unescaping, and no delimiter survives inside an escaped frame.
- **The streaming decoder (`readPacket`).** `Decoder.Step` is one iteration
  of the source's loop, as a pure function. `Decoder.Run` folds `Step` over
  the bytes available to a call, and `Decoder.ReadPacket` adds the reset of a
  complete or failed response. The class `Radio.XBee` keeps the parser
  variables, the response frame and the fixed 110-byte receive buffer as
  fields. Its `ReadPacket` method is the source's `while (available())` loop,
  proved equal to the fold. The main theorem, `Decoder.DecodeEncode`, says
  that decoding what `send` writes gives the frame back. The checksum
  decides between NO_ERROR and CHECKSUM_FAILURE. The source's own behaviour
  is kept and proved as it is:
  - the delimiter that interrupts a frame is consumed and lost;
  - a frame of length 0 never completes;
  - payloads of 107 bytes or more are rejected;
  - a failed checksum leaves the response's checksum field as the reset
    left it.
- **The field-layout catalogue and the request builders.** One tagged
  `FrameKind` stands for the 20 frame classes, and one table holds each
  kind's fields with their offsets, written `N - CMD_DATA_OFFSET` as in the
  source. Requests are built, set and read through that table:
  - the tables are proved disjoint, and a request's fields fill its
    `*_HEAD` bytes exactly;
  - setters write big-endian bytes and are proved to leave every other
    field and the tail alone;
  - tail setters keep the head and reallocate only when the tail length
    changes;
  - the `const char*` setters map ASCII digits to their values where the
    source does so.

  The two content-dependent layouts are modelled with the source's
  arithmetic: the I/O sample (`RxDataSample`) and the node identification
  (`RxNodeId`), whose NI string shifts every later field.

Files:
- `bytes.dfy`: byte types, big-endian encoding, sums, XOR 0x20.
- `protocol.dfy`: the constants of `XBeeNG.h`.
- `wrappers.dfy`: `Option`.
- `frame.dfy`: length arithmetic, checksum, and the `ApiFrame` class.
- `encoder.dfy`: `send` / `sendByte`.
- `decoder.dfy`: `readPacket` as a fold, and its properties.
- `xbee.dfy`: the `XBee` class.
- `layout.dfy`: the field-layout catalogue and the getters.
- `builders.dfy`: constructors and setters.

## Model

| member | source | states |
|---|---|---|
| Frame.JoinLength | XBeeNG.cpp:38-41 | the frame length is the two length bytes read as one big-endian 16-bit number |
| Frame.SplitLength | XBeeNG.cpp:42-46 | the MSB/LSB split of a length joins back to that length and is its 2-byte big-endian image |
| Frame.SplitJoin | XBeeNG.cpp:38-46 | splitting the joined length gives back the same two bytes |
| Frame.PayloadLength | XBeeNG.cpp:53-58 | a frame length of 0 means an empty payload; otherwise the payload is one byte shorter than the frame data (the `cmdId` byte) |
| Frame.PayloadLengthRoundTrip | XBeeNG.cpp:53-62 | setting a payload length and reading it back gives the same length below 65535; 65535 wraps the frame length to 0 and reads back as 0 |
| Frame.ChecksumOf | XBeeNG.cpp:73-87 | `cmdId`, the payload and the computed checksum sum to 0xFF modulo 256 |
| Frame.ChecksumUnique | XBeeNG.cpp:73-87 | a checksum byte passes the receiver's test if and only if it is the byte `setChecksum()` computes |
| Frame.CorruptionBreaksChecksum | XBeeNG.cpp:2251-2260 | changing any single payload byte of a frame that passes the test makes it fail |
| Frame.ApiFrame.constructor | XBeeNG.cpp:22 | a new frame has an empty buffer and every field at zero |
| Frame.ApiFrame.SetCmdData | XBeeNG.cpp:66-67 | the frame points at the given buffer and nothing else changes |
| Frame.ApiFrame.HasErrors | XBeeNG.cpp:94-95 | true exactly when the error code is not NO_ERROR |
| Frame.ApiFrame.SetFrameDataLength | XBeeNG.cpp:42-46 | the length bytes become the split of the value, which the getter reads back |
| Frame.ApiFrame.SetCmdDataLength | XBeeNG.cpp:59-62 | the frame length becomes payload length + 1 in 16-bit arithmetic, and the payload length reads back below 65535 |
| Frame.ApiFrame.SetChecksum | XBeeNG.cpp:73-87 | the 8-bit accumulation loop stores `ChecksumOf(cmdId, payload)`, so the frame passes the receiver's test; nothing else changes |
| Frame.ApiFrame.WriteBytes | XBeeNG.cpp:702-707 | a setter's byte-by-byte store leaves the buffer equal to the old one with `bytes` spliced in at the offset, and recomputes the checksum when asked |
| Frame.ApiFrame.Reallocate | XBeeNG.cpp:798-807 | the new buffer has the requested length, the length bytes match it, and the head bytes are copied over |
| Frame.ApiFrame.SetTail | XBeeNG.cpp:797-813 | the payload becomes the old head followed by the new tail; the buffer is the same array when the tail length is unchanged and a fresh one otherwise |
| Bytes.BigEndianRoundTrip | XBeeNG.cpp:702-707 | bytes a setter writes most significant first read back, big-endian, as the value written |
| Bytes.BigEndianImage | XBeeNG.cpp:681-693 | every byte string is the big-endian image of its value, so a field's bytes and its value determine each other |
| Bytes.Xor20Involution | XBeeNG.cpp:2220-2223 | the receiver's `c ^= 0x20` undoes the sender's `b ^ 0x20` |
| Protocol.ReservedBytes | XBeeNG.h:40-43 | the bytes that are escaped are exactly 0x7E, 0x7D, 0x11 and 0x13 |
| Protocol.StuffedIsPlain | XBeeNG.cpp:2351-2358 | a reserved byte XOR 0x20 is not reserved |
| Protocol.ErrorCodes | XBeeNG.h:133-136 | the three failure codes are non-zero, so `hasErrors` holds for each, and the four codes are distinct |
| Encoder.SendByte | XBeeNG.cpp:2351-2358 | a reserved byte goes out as two bytes, every other byte (or any byte with escaping off) as one; the last byte sent is the byte or its XOR 0x20 |
| Encoder.UnescapePrefix | XBeeNG.cpp:2351-2358 | the receiver's unescaping turns what `sendByte` wrote back into the byte, whatever follows |
| Encoder.UnescapeEscapeAll | XBeeNG.cpp:2351-2358 | unescaping a stream of escaped bytes gives back the original bytes |
| Encoder.EscapedIsClean | XBeeNG.cpp:2351-2358 | escaped output holds no delimiter, XON or XOFF, and every escape byte is followed by a stuffed reserved byte |
| Encoder.Encode | XBeeNG.cpp:2312-2335 | a sent frame starts with the delimiter and is between payload + 5 and 2 × payload + 9 bytes long |
| Encoder.EncodeFrames | XBeeNG.cpp:2312-2335 | the delimiter occurs only at the first byte of a sent frame, and unescaping the rest gives length, `cmdId`, payload and checksum in that order |
| Decoder.Step | XBeeNG.cpp:2207-2271 | from a pending response, a byte ends the call exactly when the response becomes complete or in error; the buffer changes only at payload positions |
| Decoder.Run | XBeeNG.cpp:2206-2272 | a call takes at most the available bytes, and takes all of them unless it returns early |
| Decoder.ResetIfDone | XBeeNG.cpp:2193-2204 | a complete or failed response is cleared with the parser variables; a pending one is left untouched |
| Decoder.ReadPacketNeverWaits | XBeeNG.cpp:2191-2273 | `readPacket` returns early exactly when the response is complete or in error, and otherwise takes every available byte |
| Decoder.ReadPacketResets | XBeeNG.cpp:2193-2204 | with no input a call discards a complete or failed response and leaves a pending one unchanged |
| Decoder.RunStopsWhenDone | XBeeNG.cpp:2206-2272 | from a pending state the loop stops exactly when the response is complete or in error |
| Decoder.RunAppend | XBeeNG.cpp:2206-2272 | running the loop over `a + b` is running it over `a` and, if it did not return, continuing over `b` |
| Decoder.ChunkedReadPacket | XBeeNG.cpp:2191-2273 | bytes delivered over two calls give the same response as in one call, when the first call ran out of input |
| Decoder.IdleDiscardsNoise | XBeeNG.cpp:2230-2234 | between frames every byte but the delimiter is discarded |
| Decoder.UnexpectedStart | XBeeNG.cpp:2208-2211 | a delimiter inside a frame is consumed, sets UNEXPECTED_START and ends the call |
| Decoder.InterruptingFrameIsLost | XBeeNG.cpp:2208-2211 | a frame that interrupts a pending one loses its delimiter: the next call discards the rest of it and never completes it |
| Decoder.ZeroLengthNeverReady | XBeeNG.cpp:2243-2251 | a frame whose length bytes are both 0 never becomes ready |
| Decoder.DecodeEncode | XBeeNG.cpp:2191-2273 | decoding what `send` writes takes exactly the frame and gives back its length, `cmdId` and payload; it completes with NO_ERROR and the checksum when the checksum closes, and otherwise fails with CHECKSUM_FAILURE, not ready, the checksum field left as reset; payloads up to 106 bytes |
| Decoder.OversizeRejected | XBeeNG.cpp:2212-2215 | a frame with a payload of 107 bytes or more ends the call with PACKET_EXCEEDS_CMD_DATA_LENGTH and is never ready |
| Decoder.CorruptionDetected | XBeeNG.cpp:2251-2260 | a sent frame with one payload byte changed is reported as CHECKSUM_FAILURE and is not ready |
| Radio.XBee.constructor | XBeeNG.cpp:2174-2188 | a new radio is between frames, with the response pointing at the receive buffer |
| Radio.XBee.ResetStateVariables | XBeeNG.cpp:2361-2365 | the position, escape flag and running sum are cleared |
| Radio.XBee.DiscardIfDone | XBeeNG.cpp:2193-2204 | the object's state afterwards is `Decoder.ResetIfDone` of its state before |
| Radio.XBee.HandleByte | XBeeNG.cpp:2207-2271 | one iteration of the loop updates the fields exactly as `Decoder.Step` does, and returns when `Step` returns |
| Radio.XBee.ReadPacket | XBeeNG.cpp:2191-2273 | the loop leaves the object in the state `Decoder.ReadPacket` computes, having read the bytes it counts, and stops before the end of the input only when the call returns |
| Radio.XBee.Send | XBeeNG.cpp:2312-2335 | the bytes written are exactly `Encode` of the request frame |
| Layout.KindOf | XBeeNG.h:60-81 | a recognised `cmdId` is the frame-type identifier of the kind it names |
| Layout.ApiIdsDistinct | XBeeNG.h:60-81 | every kind is recognised from its own identifier, so the identifiers are distinct |
| Layout.RequestLayout | XBeeNG.h:266-598 | every request's fields are disjoint, are listed once, and fill its `*_HEAD` bytes from offset 0 without gaps |
| Layout.ResponseLayout | XBeeNG.h:660-849 | every response's fields are disjoint, are listed once, and end within its `*_HEAD` bytes |
| Layout.LayoutWellFormed | XBeeNG.h:245-849 | every kind's fields are disjoint and lie in its head; a request's fields fill its head |
| Layout.SlotOf | XBeeNG.cpp:663-712 | the entry found for a field is that field's and ends within the head; no entry means the kind has no accessor for it |
| Layout.SlotOfIndex | XBeeNG.cpp:663-712 | asking for the field of any table entry finds that entry |
| Layout.Get | XBeeNG.cpp:663-712 | a getter answers exactly for the kind's fields, with as many bytes as the field is wide |
| Layout.GetValue | XBeeNG.cpp:700-707 | the value of an n-byte field is below 256^n |
| Layout.Tail | XBeeNG.cpp:795 | `getData` is the payload after the head, and `getDataLength` is its length |
| Layout.SameHeadSameFields | XBeeNG.cpp:797-813 | two payloads with the same head answer every getter alike |
| Layout.WriteSlot | XBeeNG.cpp:702-707 | a setter's bytes land at its field, and no other byte changes |
| Layout.GetAfterWrite | XBeeNG.cpp:700-707 | setting a field then getting it gives the bytes set; every other field and the tail are unchanged |
| Layout.DeliveryStatusOf | XBeeNG.cpp:2017-2021 | `getDeliveryStatus` reads the last byte of the 2-byte 0x89 head for a 0x89 frame, and the second-last byte of the `TxStatus` head otherwise; a 0x89 frame needs only its 2-byte head |
| Layout.DeliveryStatusAgrees | XBeeNG.cpp:2017-2021 | for any payload holding a 0x89 head, including one of exactly 2 bytes, `getDeliveryStatus` on 0x89 is the 0x89 frame's status field; when the payload also holds the `TxStatus` head, on 0x8B it is the delivery-status field |
| Layout.Tx16Address16AsWritten | XBeeNG.cpp:939 | the source's getter reads the two bytes at offset 4 (the start of the data), past the payload when there are fewer than two data bytes |
| Layout.Tx16Address16AsWrittenIgnoresSetter | XBeeNG.cpp:939-946 | what `setAddress16` writes never changes what `getAddress16` as written reads |
| Layout.Tx16Address16Example | XBeeNG.cpp:939-946 | for address 0x1234 and data AA BB, the getter at the setter's offset gives 0x1234, and the getter as written reads the data bytes AA BB (0xAABB read big-endian) |
| Layout.DigitalMaskOf | XBeeNG.cpp:2100-2101 | the digital mask is zero exactly when both of its bytes are zero, so the `> 0` tests on it are the same in either byte order |
| Layout.DigitalMaskIsField | XBeeNG.cpp:2100-2101 | the mask `getDigitalMask` reads is the table's `DigitalMask` field of the I/O sample frame, read big-endian |
| Layout.DigitalSamples | XBeeNG.cpp:2104-2107 | with a zero mask the digital samples are 0; otherwise they are the last two bytes of the `RX_DATA_SAMPLE_HEAD` head, read big-endian |
| Layout.AnalogSamplesOffset | XBeeNG.cpp:2109-2112 | the analog samples start right after the analog-mask field with a zero digital mask, and one 2-byte digital word later otherwise |
| Layout.AnalogSamplesLength | XBeeNG.cpp:2114-2118 | both branches of the count are the bytes after the analog-samples offset, halved with C's truncating division and stored in 16 bits |
| Layout.SamplesAdjacent | XBeeNG.cpp:2104-2113 | with a zero digital mask there is no digital word and the analog samples start at 15; otherwise the digital word is the two bytes just before them, at 17 |
| Layout.AnalogSamplesFill | XBeeNG.cpp:2114-2118 | once the payload reaches the analog samples, the count covers the whole 16-bit samples after their offset, with at most one byte left over |
| Layout.AnalogSamplesLengthWraps | XBeeNG.cpp:2114-2118 | a payload cut short before the analog samples gives a count of 65535 (`(-3)/2` stored in 16 bits) |
| Layout.AnalogSamples | XBeeNG.cpp:2109-2113 | the analog samples are two bytes per counted sample |
| Layout.NiLength | XBeeNG.cpp:2130-2137 | the NI length is the number of bytes before the first NUL after offset 21 |
| Layout.CountNiLength | XBeeNG.cpp:2130-2137 | the counting loop returns `NiLength` |
| Layout.Ni | XBeeNG.cpp:2128-2129 | the NI string has no NUL and is followed by one |
| Layout.NiFollowsFront | XBeeNG.cpp:2128-2137 | an NI string written after the fixed fields and closed by a NUL is the string `getNi` finds, with its length |
| Layout.NodeIdField | XBeeNG.cpp:2139-2148 | each field after the NI string has its field's width |
| Layout.NodeIdFieldsFollowNi | XBeeNG.cpp:2139-2148 | whatever the NI string, the fields after it are read at fixed places after its NUL |
| Layout.NodeIdLayout | XBeeNG.cpp:2139-2161 | the fields after the NI string follow its NUL without gaps; the five fixed ones end at `RX_NODE_ID_HEAD + n + 1` and RSSI at `+ n + 6` |
| Layout.DdAsWritten | XBeeNG.cpp:2150-2155 | the source's DD getter returns 0 below its guard, and runs past the payload only when it is exactly one byte short of the DD's end |
| Layout.RssiAsWritten | XBeeNG.cpp:2156-2161 | the source's RSSI getter returns 0 below its guard, and runs past the payload only when it is exactly one byte short of the RSSI byte's end |
| Layout.DdOf | XBeeNG.cpp:2150-2155 | the DD is read when the payload holds all four of its bytes and is 0 otherwise |
| Layout.RssiOf | XBeeNG.cpp:2156-2161 | the RSSI is read when the payload holds its byte and is 0 otherwise |
| Layout.NodeIdGuardsOverrun | XBeeNG.cpp:2150-2161 | the guards as written let a read run past the payload at exactly one length each (`RX_NODE_ID_HEAD + n + 4` for DD, `+ 5` for RSSI), and agree with `DdOf`/`RssiOf` at every other length |
| Layout.DdOverrunExample | XBeeNG.cpp:2150-2155 | a 33-byte payload with an empty NI string passes the DD guard, but the DD read needs a 34th byte |
| Builders.WriteFields | XBeeNG.cpp:720-723 | after the constructor's setters, every table entry holds its given bytes and nothing after the head changes |
| Builders.Build | XBeeNG.cpp:714-728 | a constructed request has the kind's `cmdId`, payload length head + data, every getter reading its argument, the data as its tail, and a valid checksum |
| Builders.FieldsDetermine | XBeeNG.cpp:714-728 | two requests of a kind that agree on every field and on the data are the same payload: the constructor's arguments fix every byte |
| Builders.BuildAtQueueCommand | XBeeNG.cpp:1238-1243 | an `AtQueueCommand` is the `AtCommand` frame with `cmdId` 0x09, the same fields and parameter, and a checksum recomputed for the new `cmdId` |
| Builders.SetField | XBeeNG.cpp:785-788 | a field setter makes the getter return the bytes set, keeps every other field, the tail and the buffer, and recomputes the checksum only when asked |
| Builders.SetFieldValue | XBeeNG.cpp:702-707 | a numeric setter writes the value big-endian, so the numeric getter reads back the value; every other field, the tail, the buffer, `cmdId`, `ready` and the error code are unchanged, and the checksum is recomputed only when asked |
| Builders.SetData | XBeeNG.cpp:797-813 | `setData`/`setParam` makes the tail the new data, keeps every field, reuses the buffer when the length is unchanged, and recomputes the checksum when asked |
| Builders.DigitValue | XBeeNG.cpp:1450-1453 | '0'..'9' become 0..9 and every other byte is kept |
| Builders.MapDigits | XBeeNG.cpp:1449-1454 | every byte of the text is mapped by `DigitValue` |
| Builders.MapDigitsIdempotent | XBeeNG.cpp:1449-1454 | mapped text holds no ASCII digit, so mapping it again changes nothing |
| Builders.SetDataText | XBeeNG.cpp:1181-1203 | the `const char*` setters make the text the tail (digits mapped for TxRequest, ExplicitTxRequest and AtCommand, verbatim for Tx64/Tx16), keep every field, `cmdId`, `ready` and the error code, reuse the buffer when the length is unchanged and allocate a fresh one otherwise, and AtCommand's recomputes the checksum whatever the flag says |
| Builders.SetRemoteCmdText | XBeeNG.cpp:1908-1931 | a two-character command is written over the command field, keeping the parameter; any other length replaces everything from offset 12 with the mapped text, reallocating only when the length changes; the bytes before offset 12, `cmdId`, `ready` and the error code are unchanged |

## Left out

- Serial I/O (`begin`, `setSerial`, `available`, `read`, `write`, `flush`). The input is the sequence of available bytes and the output is the sequence written.
- `readPacket(timeout)` and `readPacketUntilAvailable`: they depend on a clock or on waiting.
- `printSummary` and `printHex`: text output only.
- Host byte order. The source reads multi-byte fields by casting the buffer to `uint16_t*`/`uint32_t*`, which depends on the host. The model gives a getter as the field's bytes, plus a big-endian value. `Address64` is one 8-byte field rather than the source's two 4-byte halves.
- `AtCommand::setCmd(uint16_t)` and `RemoteAtCommand::setCmd(uint16_t)` store the value in host order. They are modelled as writing the field's two wire bytes.
- Inherited accessors that overlap another field are not in the tables: `Tx64Request`'s inherited `getAddress16`/`setAddress16` at offset 9, and `Rx64Response`'s private `getAddress16`.
- The forwarding constructors, the `initializer_list` variants and the extra `const char*` constructors are left out. They reduce to the modelled `Build` and tail setters.
- Raw `new`/`delete` and the aliasing `getApiFrame(XBeeApiFrame&)` are left out. The model allocates fresh arrays and never frees them.
- `Rx64DataSample` and `Rx16DataSample` are not part of this model.
- Out-of-bounds reads and writes are preconditions, not modelled behaviour. This covers a buffer shorter than the head, and a payload too short for a getter.
- New buffers are zero-filled in the model, and `XBeeApiFrame()` starts with its length bytes, `cmdId`, checksum, `ready` flag and error code at zero. The source sets only the buffer pointer and leaves all of those uninitialised.
- Frame.ApiFrame.SetTail: requires `head + |tail| < 65535`, so it does not model the 16-bit length wrap for longer tails.
- Builders.SetData: requires the same bound as `SetTail`, and so does not model the 16-bit length wrap.
- Frame.ApiFrame.Reallocate: requires the new length below 65535, so it does not model the 16-bit length wrap.
- Builders.Build: requires `HEAD + |data| < 65535`. The constructors' `setCmdDataLength(HEAD + dataLength)` would wrap beyond that, which the model does not cover.
- Builders.BuildAtQueueCommand: requires the same bound as `Build`, for the same reason.
- Builders.SetDataText: requires the same bound as `SetData`, for the same reason.
- Builders.SetRemoteCmdText: requires the same bound for the text written from offset 12, for the same reason.
- A payload of 65535 bytes or more does not fit the memory of the boards the library targets.
- Encoder.SendByte: its contract states the output length and last byte only. Its meaning as the inverse of unescaping is stated by `Encoder.UnescapePrefix`.
- Layout.DigitalSamples: reads the digital word big-endian, where the source reads it in host order. `Layout.DigitalMaskOf` shows that the mask's test against 0 does not depend on the order.

## Findings

| source | as written | input that shows it | evidently intended | confidence | as-written member | corrected member |
|---|---|---|---|---|---|---|
| XBeeNG.cpp:939 | `Tx16Request::getAddress16` reads the two bytes at `8 - CMD_DATA_OFFSET` (offset 4, the start of the data). `setAddress16` and the constructor write offset 1. | A request built with address 0x1234 and data `AA BB`: the getter returns the data bytes AA BB (0xAABB read big-endian, 0xBBAA on a little-endian host), not 0x1234 | read at `5 - CMD_DATA_OFFSET`, where the setter writes | high; not executed | Layout.Tx16Address16AsWritten, Layout.Tx16Address16Example | Layout.GetAfterWrite (the table reads Tx16 `Address16` at offset 1) |
| XBeeNG.cpp:2150-2161 | `RxNodeId::getDigiDd` and `getRssi` guard with `RX_NODE_ID_HEAD + getNiLength() + 4` (resp. `+ 5`). That bound does not count the NI string's NUL, so at exactly that length the read runs one byte past the payload. | A 33-byte node identification payload with an empty NI string | guard on the field's end, `RX_NODE_ID_HEAD + getNiLength() + 5` (resp. `+ 6`) | high; not executed | Layout.DdAsWritten, Layout.DdOverrunExample | Layout.DdOf, Layout.NodeIdGuardsOverrun |
