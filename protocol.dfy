/** The protocol constants of the XBee API mode with escaping (ATAP = 2):
    reserved wire bytes, receive-buffer limits, frame-type identifiers,
    fixed-head lengths and decoder error codes, as `XBeeNG.h` defines them. */
module Protocol {
  import opened Bytes

  /** The API mode this library speaks: 2 is the escaped variant. */
  const ATAP: nat := 2

  // Reserved wire bytes.
  const XB_START: uint8 := 0x7E
  const XB_ESCAPE: uint8 := 0x7D
  const XB_ON: uint8 := 0x11
  const XB_OFF: uint8 := 0x13

  /** The capacity of the decoder's receive buffer. */
  const MAX_CMD_DATA_SIZE: nat := 110

  /** Wire position of the first payload byte: start, length MSB, length LSB, cmdId. */
  const CMD_DATA_OFFSET: nat := 4

  // Frame-type identifiers (the cmdId byte).
  const TX_64_REQUEST: uint8 := 0x00
  const TX_16_REQUEST: uint8 := 0x01
  const AT_COMMAND: uint8 := 0x08
  const AT_QUEUE_COMMAND: uint8 := 0x09
  const TX_REQUEST: uint8 := 0x10
  const EXPLICIT_TX_REQUEST: uint8 := 0x11
  const REMOTE_AT_COMMAND: uint8 := 0x17
  const RX_64_RESPONSE: uint8 := 0x80
  const RX_16_RESPONSE: uint8 := 0x81
  const RX_64_DATA_SAMPLE: uint8 := 0x82
  const RX_16_DATA_SAMPLE: uint8 := 0x83
  const AT_COMMAND_RESPONSE: uint8 := 0x88
  const TX_STATUS_RESPONSE: uint8 := 0x89
  const MODEM_STATUS: uint8 := 0x8A
  const TX_STATUS: uint8 := 0x8B
  const ROUTE_INFORMATION: uint8 := 0x8D
  const AGGREGATE_ADDRESSING: uint8 := 0x8E
  const RX_RESPONSE: uint8 := 0x90
  const EXPLICIT_RX_RESPONSE: uint8 := 0x91
  const RX_DATA_SAMPLE: uint8 := 0x92
  const RX_NODE_ID: uint8 := 0x95
  const REMOTE_AT_COMMAND_RESPONSE: uint8 := 0x97
  const CREATE_SOURCE_ROUTE: uint8 := 0x21
  const SENSOR_READ: uint8 := 0x94
  const OTA_FIRMWARE_UPDATE_STATUS: uint8 := 0xA0
  const ROUTE_RECORD: uint8 := 0xA1
  const MTO_ROUTE_REQUEST: uint8 := 0xA3

  // Addresses the convenience builders default to.
  const BROADCAST_ADDRESS16: uint16 := 0xFFFE
  const BROADCAST_ADDRESS64: uint16 := 0xFFFF

  // Fixed-head lengths: payload bytes before each kind's variable tail.
  const FRAME_ID_HEAD: nat := 1
  const TXRX_FRAME_ID_HEAD: nat := 11
  const TX_64_REQUEST_HEAD: nat := 10
  const TX_16_REQUEST_HEAD: nat := 4
  const AT_COMMAND_HEAD: nat := 3
  const AT_QUEUE_COMMAND_HEAD: nat := 3
  const TX_REQUEST_HEAD: nat := 13
  const EXPLICIT_TX_REQUEST_HEAD: nat := 19
  const REMOTE_AT_COMMAND_HEAD: nat := 14
  const RX_64_RESPONSE_HEAD: nat := 10
  const RX_16_RESPONSE_HEAD: nat := 4
  const AT_COMMAND_RESPONSE_HEAD: nat := 4
  const TX_STATUS_RESPONSE_HEAD: nat := 2
  const MODEM_STATUS_HEAD: nat := 1
  const TX_STATUS_HEAD: nat := 6
  const ROUTE_INFORMATION_HEAD: nat := 41
  const AGGREGATE_ADDRESSING_HEAD: nat := 17
  const RX_RESPONSE_HEAD: nat := 11
  const EXPLICIT_RX_RESPONSE_HEAD: nat := 17
  const RX_DATA_SAMPLE_HEAD: nat := 17
  const RX_NODE_ID_HEAD: nat := 29
  const REMOTE_AT_COMMAND_RESPONSE_HEAD: nat := 14

  // Decoder error codes.
  const NO_ERROR: uint8 := 0
  const CHECKSUM_FAILURE: uint8 := 1
  const PACKET_EXCEEDS_CMD_DATA_LENGTH: uint8 := 2
  const UNEXPECTED_START: uint8 := 3

  /** A byte the encoder must stuff: it would otherwise read as a delimiter,
      an escape or a software flow-control character. */
  predicate IsReserved(b: uint8)
  {
    b == XB_START || b == XB_ESCAPE || b == XB_ON || b == XB_OFF
  }

  /** The reserved bytes are exactly 0x7E, 0x7D, 0x11 and 0x13. */
  lemma ReservedBytes()
    ensures forall b: uint8 :: IsReserved(b) <==> b in {0x7E, 0x7D, 0x11, 0x13}
  {
  }

  /** Stuffing (XOR 0x20) moves every reserved byte to one that is not reserved. */
  lemma StuffedIsPlain(b: uint8)
    requires IsReserved(b)
    ensures !IsReserved(Xor20(b))
  {
    if b == XB_START {
      assert Xor20(b) == 0x5E;
    } else if b == XB_ESCAPE {
      assert Xor20(b) == 0x5D;
    } else if b == XB_ON {
      assert Xor20(b) == 0x31;
    } else {
      assert Xor20(b) == 0x33;
    }
  }

  /** The decoder's error taxonomy: `hasErrors` (a non-zero code) holds for
      exactly the three failure codes, and the four codes are distinct. */
  predicate IsErrorCode(code: uint8)
  {
    code == CHECKSUM_FAILURE || code == PACKET_EXCEEDS_CMD_DATA_LENGTH || code == UNEXPECTED_START
  }

  lemma ErrorCodes()
    ensures forall code: uint8 :: IsErrorCode(code) ==> code > NO_ERROR
    ensures |{NO_ERROR, CHECKSUM_FAILURE, PACKET_EXCEEDS_CMD_DATA_LENGTH, UNEXPECTED_START}| == 4
  {
  }
}
