/** The `XBee` object: the parser variables, the response frame and its
    fixed receive buffer, updated in place by `readPacket`, and `send`,
    which writes a request frame to the serial sink. The serial source is
    the sequence of bytes available to a call, the serial sink the
    sequence of bytes a call writes. */
module Radio {
  import opened Bytes
  import opened Protocol
  import opened Frame
  import opened Encoder
  import Decoder

  class XBee {
    /** `_pos`: the wire position of the next byte of the frame being read. */
    var pos: nat
    /** `_escape`: the previous byte was the escape byte. */
    var escape: bool
    /** `_checksumTotal`: the 8-bit running sum from `cmdId` on. */
    var checksumTotal: uint8
    /** `_response`: the frame being read. */
    const response: ApiFrame
    /** `_responseCmdData`: the fixed receive buffer the response points at. */
    const responseCmdData: array<uint8>

    predicate Valid()
      reads this, response
    {
      response.cmdData == responseCmdData && responseCmdData.Length == MAX_CMD_DATA_SIZE
      && pos <= MAX_CMD_DATA_SIZE + 1
    }

    /** The parser and the response seen as the decoder's state. */
    function State(): (s: Decoder.RxState)
      requires Valid()
      reads this, response, responseCmdData
      ensures s.Valid()
    {
      Decoder.RxState(pos, escape, checksumTotal,
                      response.msbLength, response.lsbLength, response.cmdId, response.checksum,
                      response.ready, response.errorCode, responseCmdData[..])
    }

    /** The parser starts between frames with an empty response pointing at
        the receive buffer (whose bytes the model sets to 0). */
    constructor ()
      ensures Valid() && State() == Decoder.Initial()
      ensures fresh(response) && fresh(responseCmdData)
    {
      pos, escape, checksumTotal := 0, false, 0;
      var frame := new ApiFrame();
      var buffer := new uint8[MAX_CMD_DATA_SIZE](_ => 0);
      frame.SetCmdData(buffer);
      response, responseCmdData := frame, buffer;
      new;
      assert responseCmdData[..] == seq(MAX_CMD_DATA_SIZE, _ => 0);
    }

    /** `resetStateVariables`. */
    method ResetStateVariables()
      modifies this
      ensures pos == 0 && !escape && checksumTotal == 0
    {
      pos, escape, checksumTotal := 0, false, 0;
    }

    /** The start of `readPacket`: a response that is complete or in error
        is reset, together with the parser variables. */
    method DiscardIfDone()
      requires Valid()
      modifies this, response
      ensures Valid() && State() == Decoder.ResetIfDone(old(State()))
    {
      if response.ready || response.HasErrors() {
        ResetStateVariables();
        response.msbLength, response.lsbLength, response.cmdId, response.checksum := 0, 0, 0, 0;
        response.ready, response.errorCode := false, NO_ERROR;
      }
    }

    /** One iteration of the `readPacket` loop on the byte `c`; `returned`
        says whether the call returns after it. */
    method HandleByte(c: uint8) returns (returned: bool)
      requires Valid()
      modifies this, response, responseCmdData
      ensures Valid()
      ensures Decoder.Step(old(State()), c) == Decoder.StepResult(State(), returned)
    {
      if pos > 0 && c == XB_START {
        response.errorCode := UNEXPECTED_START;
        return true;
      }
      if pos > MAX_CMD_DATA_SIZE {
        response.errorCode := PACKET_EXCEEDS_CMD_DATA_LENGTH;
        return true;
      }
      if pos > 0 && c == XB_ESCAPE {
        escape := true;
        return false;
      }
      var b := c;
      if escape {
        b := Xor20(b);
        escape := false;
      }
      if pos >= 3 {
        checksumTotal := (checksumTotal + b) % 256;
      }
      if pos == 0 {
        if b == XB_START {
          pos := 1;
        }
      } else if pos == 1 {
        response.msbLength := b;
        pos := 2;
      } else if pos == 2 {
        response.lsbLength := b;
        pos := 3;
      } else if pos == 3 {
        response.cmdId := b;
        pos := 4;
      } else if pos == response.FrameDataLength() + 3 {
        if checksumTotal == 0xFF {
          response.checksum := b;
          response.ready := true;
          response.errorCode := NO_ERROR;
        } else {
          response.errorCode := CHECKSUM_FAILURE;
        }
        pos, checksumTotal := 0, 0;
        return true;
      } else {
        response.cmdData[pos - CMD_DATA_OFFSET] := b;
        pos := pos + 1;
      }
      return false;
    }

    /** `readPacket()` on the bytes `input[from..]` available to it: discard
        a complete or failed response, then take bytes until a frame
        completes or fails or the input runs out. `next` is the index of the
        first byte the call left unread. */
    method ReadPacket(input: seq<uint8>, from: nat) returns (next: nat)
      requires Valid() && from <= |input|
      modifies this, response, responseCmdData
      ensures Valid()
      ensures State() == Decoder.ReadPacket(old(State()), input[from..]).state
      ensures next == from + Decoder.ReadPacket(old(State()), input[from..]).consumed
      ensures next < |input| ==> Decoder.ReadPacket(old(State()), input[from..]).returned
    {
      DiscardIfDone();
      ghost var start := State();
      next := from;
      while next < |input|
        invariant Valid() && from <= next <= |input|
        invariant Decoder.Run(start, input[from..]) ==
                  Decoder.Shift(Decoder.Run(State(), input[next..]), next - from)
        decreases |input| - next
      {
        ghost var before := State();
        assert input[next..][0] == input[next] && input[next..][1..] == input[next + 1..];
        var returned := HandleByte(input[next]);
        next := next + 1;
        if returned {
          assert Decoder.Run(before, input[next - 1..]) == Decoder.Outcome(State(), 1, true);
          return;
        }
      }
    }

    /** `send(request)`: the start delimiter unescaped, then length, `cmdId`,
        every payload byte and the checksum, each escaped. */
    method Send(request: ApiFrame) returns (wire: seq<uint8>)
      requires request.Valid()
      ensures wire == Encode(request.Wire())
    {
      ghost var f := request.Wire();
      ghost var header := [XB_START] + EscapeAll([f.msbLength, f.lsbLength, f.cmdId]);
      wire := SendByte(XB_START, false);
      wire := wire + SendByte(request.msbLength, true);
      wire := wire + SendByte(request.lsbLength, true);
      wire := wire + SendByte(request.cmdId, true);
      Decoder.EscapeHeader(f);
      assert f.payload[..0] == [];
      assert wire == header + EscapeAll(f.payload[..0]);
      var length := request.CmdDataLength();
      var cmdData := request.cmdData;
      assert f.payload == cmdData[..length];
      for i := 0 to length
        invariant wire == header + EscapeAll(f.payload[..i])
      {
        EscapeTakeOne(f.payload, i);
        assert cmdData[i] == f.payload[i];
        wire := wire + SendByte(cmdData[i], true);
      }
      assert f.payload[..length] == f.payload;
      Decoder.EncodeSplits(f);
      ghost var body := EscapeAll(f.payload);
      ghost var last := SendByte(f.checksum, true);
      assert (header + body) + last == header + (body + last);
      wire := wire + SendByte(request.checksum, true);
    }
  }

  /** Escaping one more byte of `b` extends the escaped prefix by that byte's escape. */
  lemma EscapeTakeOne(b: seq<uint8>, i: nat)
    requires i < |b|
    ensures EscapeAll(b[..i + 1]) == EscapeAll(b[..i]) + SendByte(b[i], true)
  {
    assert b[..i + 1] == b[..i] + [b[i]];
    EscapeAllAppend(b[..i], [b[i]]);
    assert [b[i]][1..] == [];
  }
}
