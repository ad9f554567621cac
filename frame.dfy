/** The API frame (`XBeeApiFrame`): two length bytes, the frame-type byte
    `cmdId`, the payload buffer `cmdData`, the checksum, and the decoder's
    `ready` flag and error code.

    The arithmetic of the accessors is given as functions, the frame itself
    as a class whose methods update its fields in place, as the source does. */
module Frame {
  import opened Bytes
  import opened Protocol

  // ---------------------------------------------------------------------
  // Length and checksum arithmetic
  // ---------------------------------------------------------------------

  /** `getFrameDataLength`: the two length bytes read as a 16-bit number. */
  function JoinLength(msb: uint8, lsb: uint8): (n: uint16)
    ensures n == FromBigEndian([msb, lsb])
  {
    assert [msb, lsb][..1] == [msb];
    assert [msb][..0] == [];
    msb * 256 + lsb
  }

  /** `setFrameDataLength`: the length split into its MSB and LSB. */
  function SplitLength(n: uint16): (bytes: (uint8, uint8))
    ensures JoinLength(bytes.0, bytes.1) == n
    ensures [bytes.0, bytes.1] == ToBigEndian(n, 2)
  {
    (n / 256, n % 256)
  }

  /** Splitting the value that two length bytes denote gives those two bytes back. */
  lemma SplitJoin(msb: uint8, lsb: uint8)
    ensures SplitLength(JoinLength(msb, lsb)) == (msb, lsb)
  {
    var n: int := msb as int * 256 + lsb as int;
    assert JoinLength(msb, lsb) as int == n;
    assert n / 256 == msb as int && n % 256 == lsb as int;
  }

  /** `getCmdDataLength`: the payload is every frame-data byte except the
      `cmdId`, and a zero frame length means an empty payload. */
  function PayloadLength(frameDataLength: uint16): (n: uint16)
    ensures frameDataLength == 0 ==> n == 0
    ensures frameDataLength > 0 ==> n + 1 == frameDataLength
  {
    if frameDataLength == 0 then 0 else frameDataLength - 1
  }

  /** `setCmdDataLength`: the frame length that the source stores for a
      payload of `cmdDataLength` bytes, `cmdDataLength + 1` in 16-bit arithmetic. */
  function FrameLengthFor(cmdDataLength: uint16): uint16
  {
    (cmdDataLength + 1) % 0x1_0000
  }

  /** Setting the payload length and reading it back gives the same length,
      except for 65535, where the 16-bit frame length wraps to 0 and reads back as 0. */
  lemma {:induction false} PayloadLengthRoundTrip(cmdDataLength: uint16)
    ensures cmdDataLength < 0xFFFF ==> PayloadLength(FrameLengthFor(cmdDataLength)) == cmdDataLength
    ensures cmdDataLength == 0xFFFF ==> FrameLengthFor(cmdDataLength) == 0 && PayloadLength(FrameLengthFor(cmdDataLength)) == 0
  {
  }

  /** The checksum byte `setChecksum()` stores: 0xFF minus the low byte of
      `cmdId` plus every payload byte. */
  function ChecksumOf(cmdId: uint8, payload: seq<uint8>): (cs: uint8)
    ensures (cmdId + SumBytes(payload) + cs) % 256 == 0xFF
  {
    0xFF - (cmdId + SumBytes(payload)) % 256
  }

  /** The receiver's test: `cmdId`, payload and checksum byte sum to 0xFF modulo 256. */
  predicate Closes(cmdId: uint8, payload: seq<uint8>, checksum: uint8)
  {
    (cmdId + SumBytes(payload) + checksum) % 256 == 0xFF
  }

  /** The checksum `setChecksum()` computes is the one and only byte that closes the sum. */
  lemma ChecksumUnique(cmdId: uint8, payload: seq<uint8>, checksum: uint8)
    ensures Closes(cmdId, payload, checksum) <==> checksum == ChecksumOf(cmdId, payload)
  {
  }

  /** A sum that closes stops closing when any one payload byte changes:
      the change moves the total by less than 256 and by more than 0. */
  lemma CorruptionBreaksChecksum(cmdId: uint8, payload: seq<uint8>, checksum: uint8, i: nat, b: uint8)
    requires i < |payload| && b != payload[i] && Closes(cmdId, payload, checksum)
    ensures !Closes(cmdId, payload[i := b], checksum)
  {
    SumBytesUpdate(payload, i, b);
  }

  /** A frame as the bytes it puts on the wire before escaping. */
  datatype WireFrame = WireFrame(msbLength: uint8, lsbLength: uint8, cmdId: uint8,
                                 payload: seq<uint8>, checksum: uint8)
  {
    /** The length bytes describe the payload: frame length = cmdId + payload. */
    predicate LengthMatches()
    {
      JoinLength(msbLength, lsbLength) == |payload| + 1
    }

    /** The checksum byte closes the sum. */
    predicate ChecksumValid()
    {
      Closes(cmdId, payload, checksum)
    }
  }

  // ---------------------------------------------------------------------
  // The frame object
  // ---------------------------------------------------------------------

  class ApiFrame {
    var msbLength: uint8
    var lsbLength: uint8
    var cmdId: uint8
    /** The payload buffer; `getCmdDataLength()` says how much of it is in use. */
    var cmdData: array<uint8>
    var checksum: uint8
    var ready: bool
    var errorCode: uint8

    /** The source sets only the buffer pointer (to null); the model starts
        with an empty buffer and every other field at zero. */
    constructor ()
      ensures msbLength == 0 && lsbLength == 0 && cmdId == 0 && checksum == 0
      ensures !ready && errorCode == NO_ERROR
      ensures fresh(cmdData) && cmdData.Length == 0
    {
      msbLength, lsbLength, cmdId, checksum := 0, 0, 0, 0;
      ready, errorCode := false, NO_ERROR;
      cmdData := new uint8[0];
    }

    /** `setCmdData`: point the frame at a caller-owned buffer. */
    method SetCmdData(buffer: array<uint8>)
      modifies this
      ensures cmdData == buffer
      ensures msbLength == old(msbLength) && lsbLength == old(lsbLength) && cmdId == old(cmdId)
      ensures checksum == old(checksum) && ready == old(ready) && errorCode == old(errorCode)
    {
      cmdData := buffer;
    }

    function FrameDataLength(): uint16
      reads this
    {
      JoinLength(msbLength, lsbLength)
    }

    function CmdDataLength(): uint16
      reads this
    {
      PayloadLength(FrameDataLength())
    }

    /** The buffer holds at least the `getCmdDataLength()` bytes the
        accessors, `setChecksum` and `send` walk over. */
    predicate Valid()
      reads this
    {
      CmdDataLength() <= cmdData.Length
    }

    /** The payload: every byte after `cmdId` and before the checksum. */
    function Payload(): (p: seq<uint8>)
      requires Valid()
      reads this, cmdData
      ensures |p| == CmdDataLength()
    {
      cmdData[..CmdDataLength()]
    }

    /** The frame as `send` writes it, before escaping. */
    function Wire(): (w: WireFrame)
      requires Valid()
      reads this, cmdData
      ensures w.payload == Payload() && w.cmdId == cmdId && w.checksum == checksum
      ensures FrameDataLength() > 0 ==> w.LengthMatches()
    {
      WireFrame(msbLength, lsbLength, cmdId, Payload(), checksum)
    }

    /** `hasErrors`. */
    function HasErrors(): (r: bool)
      reads this
      ensures r <==> errorCode != NO_ERROR
    {
      errorCode > 0
    }

    method SetFrameDataLength(n: uint16)
      modifies this
      ensures FrameDataLength() == n
      ensures (msbLength, lsbLength) == SplitLength(n)
      ensures cmdId == old(cmdId) && cmdData == old(cmdData) && checksum == old(checksum)
      ensures ready == old(ready) && errorCode == old(errorCode)
    {
      msbLength := n / 256;
      lsbLength := n % 256;
    }

    method SetCmdDataLength(n: uint16)
      modifies this
      ensures FrameDataLength() == FrameLengthFor(n)
      ensures n < 0xFFFF ==> CmdDataLength() == n
      ensures cmdId == old(cmdId) && cmdData == old(cmdData) && checksum == old(checksum)
      ensures ready == old(ready) && errorCode == old(errorCode)
    {
      PayloadLengthRoundTrip(n);
      SetFrameDataLength(FrameLengthFor(n));
    }

    /** `setChecksum()`: accumulates `cmdId` and the payload in an 8-bit
        register and stores 0xFF minus the total. */
    method SetChecksum()
      requires Valid()
      modifies this
      ensures Valid() && checksum == ChecksumOf(cmdId, Payload())
      ensures Wire().ChecksumValid()
      ensures msbLength == old(msbLength) && lsbLength == old(lsbLength) && cmdId == old(cmdId)
      ensures cmdData == old(cmdData) && ready == old(ready) && errorCode == old(errorCode)
    {
      var total: uint8 := cmdId;
      var length := CmdDataLength();
      ghost var payload := Payload();
      for i := 0 to length
        modifies {}
        invariant total == (cmdId + SumBytes(payload[..i])) % 256
      {
        SumBytesPrefix(payload, i);
        ModAccumulate(cmdId + SumBytes(payload[..i]), cmdData[i]);
        total := (total + cmdData[i]) % 256;
      }
      assert payload[..length] == payload;
      checksum := 0xFF - total;
    }

    /** The field setters: store `bytes` at payload `offset`, byte by byte,
        then recompute the checksum if asked to. */
    method WriteBytes(offset: nat, bytes: seq<uint8>, performChecksum: bool)
      requires Valid() && offset + |bytes| <= CmdDataLength()
      modifies this, cmdData
      ensures cmdData == old(cmdData) && Valid()
      ensures cmdData[..] == old(cmdData[..])[..offset] + bytes + old(cmdData[..])[offset + |bytes|..]
      ensures Payload() == old(Payload())[..offset] + bytes + old(Payload())[offset + |bytes|..]
      ensures checksum == if performChecksum then ChecksumOf(cmdId, Payload()) else old(checksum)
      ensures msbLength == old(msbLength) && lsbLength == old(lsbLength) && cmdId == old(cmdId)
      ensures ready == old(ready) && errorCode == old(errorCode)
    {
      ghost var before := cmdData[..];
      var buffer := cmdData;
      for i := 0 to |bytes|
        modifies buffer
        invariant cmdData[..] == before[..offset] + bytes[..i] + before[offset + i..]
      {
        buffer[offset + i] := bytes[i];
        assert bytes[..i + 1] == bytes[..i] + [bytes[i]];
      }
      assert bytes[..|bytes|] == bytes;
      SpliceTake(before, offset, bytes, CmdDataLength());
      if performChecksum {
        SetChecksum();
      }
    }

    /** The reallocation step of the tail setters: a new buffer of `length`
        bytes whose first `head` bytes are the old payload's, and the length
        bytes set to match. */
    method Reallocate(head: nat, length: nat)
      requires Valid() && head <= CmdDataLength() && head <= length < 0xFFFF
      modifies this
      ensures Valid() && CmdDataLength() == length
      ensures fresh(cmdData) && cmdData.Length == length
      ensures Payload()[..head] == old(Payload())[..head]
      ensures cmdId == old(cmdId) && checksum == old(checksum)
      ensures ready == old(ready) && errorCode == old(errorCode)
    {
      var saved := cmdData[..head];
      var buffer := new uint8[length];
      for i := 0 to head
        modifies buffer
        invariant buffer[..i] == saved[..i]
      {
        buffer[i] := saved[i];
        assert buffer[..i + 1] == buffer[..i] + [buffer[i]];
      }
      cmdData := buffer;
      SetCmdDataLength(length);
      assert Payload()[..head] == buffer[..head];
    }

    /** The tail setters (`setData`, `setParam`): keep the first `head`
        payload bytes, make the payload exactly `head + |tail|` bytes long,
        copy `tail` after the head and recompute the checksum if asked to.
        The buffer is reallocated only when the tail length changes. */
    method SetTail(head: nat, tail: seq<uint8>, performChecksum: bool)
      requires Valid() && head <= CmdDataLength() && head + |tail| < 0xFFFF
      modifies this, cmdData
      ensures Valid() && CmdDataLength() == head + |tail|
      ensures Payload() == old(Payload())[..head] + tail
      ensures old(CmdDataLength()) - head == |tail| ==>
                cmdData == old(cmdData) &&
                cmdData[..] == old(cmdData[..])[..head] + tail + old(cmdData[..])[head + |tail|..]
      ensures old(CmdDataLength()) - head != |tail| ==> fresh(cmdData) && cmdData.Length == head + |tail|
      ensures checksum == if performChecksum then ChecksumOf(cmdId, Payload()) else old(checksum)
      ensures cmdId == old(cmdId) && ready == old(ready) && errorCode == old(errorCode)
    {
      if CmdDataLength() - head != |tail| {
        Reallocate(head, head + |tail|);
      }
      WriteBytes(head, tail, performChecksum);
    }
  }
}
