/** The receiving side (`XBee::readPacket`) as a pure state machine: one
    `Step` per input byte, `Run` folding `Step` over the available bytes until
    a call returns, and `ReadPacket` adding the reset a call performs when the
    previous response is complete or in error. The class in `Radio` is proved
    to compute exactly `ReadPacket`. */
module Decoder {
  import opened Bytes
  import opened Protocol
  import opened Frame
  import opened Encoder

  /** The parser variables of `XBee` (`_pos`, `_escape`, `_checksumTotal`)
      together with the fields of its response frame and the contents of its
      fixed receive buffer. */
  datatype RxState = RxState(
    pos: nat, escape: bool, checksumTotal: uint8,
    msbLength: uint8, lsbLength: uint8, cmdId: uint8, checksum: uint8,
    ready: bool, errorCode: uint8,
    cmdData: seq<uint8>)
  {
    /** The buffer has its fixed 110 bytes and the position never passes 111. */
    predicate Valid()
    {
      |cmdData| == MAX_CMD_DATA_SIZE && pos <= MAX_CMD_DATA_SIZE + 1
    }

    /** The response is complete or in error: the next call starts afresh. */
    predicate Done()
    {
      ready || errorCode > NO_ERROR
    }

    /** Between frames: hunting for a start delimiter with nothing pending. */
    predicate Idle()
    {
      pos == 0 && !escape && checksumTotal == 0 && !Done()
    }

    function FrameDataLength(): uint16
    {
      JoinLength(msbLength, lsbLength)
    }
  }

  /** The state after one byte, and whether `readPacket` returns after it. */
  datatype StepResult = StepResult(state: RxState, returned: bool)

  /** The state after one call, how many bytes it took, and whether it
      returned before the input ran out. */
  datatype Outcome = Outcome(state: RxState, consumed: nat, returned: bool)

  /** An outcome seen from `n` bytes earlier in the input. */
  function Shift(o: Outcome, n: nat): Outcome
  {
    o.(consumed := o.consumed + n)
  }

  /** The state of a freshly constructed `XBee`. */
  function Initial(): (s: RxState)
    ensures s.Valid() && s.Idle()
  {
    RxState(0, false, 0, 0, 0, 0, 0, false, NO_ERROR, seq(MAX_CMD_DATA_SIZE, _ => 0))
  }

  /** The processing of one byte after escaping is resolved: the escape
      flag is cleared, the running sum takes the byte from position 3 on,
      and the position switch decides what the byte is. */
  function Absorb(s: RxState, b: uint8): (r: StepResult)
    requires s.Valid() && s.pos <= MAX_CMD_DATA_SIZE
    ensures r.state.Valid()
  {
    Dispatch(Summed(s, b), b)
  }

  /** The state once the escape flag is cleared and, from position 3 on,
      the byte is added to the 8-bit running sum. */
  function Summed(s: RxState, b: uint8): (t: RxState)
    requires s.Valid() && s.pos <= MAX_CMD_DATA_SIZE
    ensures t.Valid() && t.pos == s.pos && !t.escape
  {
    var total := if s.pos >= 3 then (s.checksumTotal + b) % 256 else s.checksumTotal;
    s.(escape := false, checksumTotal := total)
  }

  /** The position switch of `readPacket`: delimiter, length MSB, length
      LSB, `cmdId`, then payload bytes until the checksum byte at position
      frame length + 3, where the frame completes or fails. */
  function Dispatch(t: RxState, b: uint8): (r: StepResult)
    requires t.Valid() && t.pos <= MAX_CMD_DATA_SIZE
    ensures r.state.Valid()
  {
    if t.pos == 0 then
      StepResult(if b == XB_START then t.(pos := 1) else t, false)
    else if t.pos == 1 then
      StepResult(t.(msbLength := b, pos := 2), false)
    else if t.pos == 2 then
      StepResult(t.(lsbLength := b, pos := 3), false)
    else if t.pos == 3 then
      StepResult(t.(cmdId := b, pos := 4), false)
    else if t.pos == t.FrameDataLength() + 3 then
      var u := if t.checksumTotal == 0xFF then t.(checksum := b, ready := true, errorCode := NO_ERROR)
               else t.(errorCode := CHECKSUM_FAILURE);
      StepResult(u.(pos := 0, checksumTotal := 0), true)
    else
      StepResult(t.(cmdData := t.cmdData[t.pos - CMD_DATA_OFFSET := b], pos := t.pos + 1), false)
  }

  /** One iteration of the `readPacket` loop on the raw byte `c`: a
      delimiter inside a frame, an overlong frame and the escape byte are
      handled before anything else. */
  function Step(s: RxState, c: uint8): (r: StepResult)
    requires s.Valid()
    ensures r.state.Valid()
    ensures !s.Done() ==> (r.returned <==> r.state.Done())
    ensures r.state.cmdData != s.cmdData ==> s.pos >= CMD_DATA_OFFSET && !r.returned
  {
    if s.pos > 0 && c == XB_START then
      StepResult(s.(errorCode := UNEXPECTED_START), true)
    else if s.pos > MAX_CMD_DATA_SIZE then
      StepResult(s.(errorCode := PACKET_EXCEEDS_CMD_DATA_LENGTH), true)
    else if s.pos > 0 && c == XB_ESCAPE then
      StepResult(s.(escape := true), false)
    else
      Absorb(s, if s.escape then Xor20(c) else c)
  }

  /** The `while (available())` loop: `Step` over the input until a step returns. */
  function Run(s: RxState, input: seq<uint8>): (o: Outcome)
    requires s.Valid()
    ensures o.state.Valid() && o.consumed <= |input|
    ensures o.returned ==> 0 < o.consumed
    ensures !o.returned ==> o.consumed == |input|
    decreases |input|
  {
    if input == [] then Outcome(s, 0, false)
    else
      var r := Step(s, input[0]);
      if r.returned then Outcome(r.state, 1, true)
      else Shift(Run(r.state, input[1..]), 1)
  }

  /** The reset at the top of `readPacket`: a complete or failed response
      is discarded (parser variables, length, `cmdId`, checksum, ready flag
      and error code); the buffer is left as it is. */
  function ResetIfDone(s: RxState): (r: RxState)
    requires s.Valid()
    ensures r.Valid() && !r.Done() && r.cmdData == s.cmdData
    ensures s.Done() ==> r.pos == 0 && !r.escape && r.checksumTotal == 0
    ensures s.Done() ==> r.msbLength == 0 && r.lsbLength == 0 && r.cmdId == 0 && r.checksum == 0
    ensures !s.Done() ==> r == s
  {
    if s.Done() then
      s.(pos := 0, escape := false, checksumTotal := 0,
         msbLength := 0, lsbLength := 0, cmdId := 0, checksum := 0,
         ready := false, errorCode := NO_ERROR)
    else s
  }

  /** One call of `readPacket()` on the bytes currently available. */
  function ReadPacket(s: RxState, input: seq<uint8>): (o: Outcome)
    requires s.Valid()
    ensures o.state.Valid()
  {
    Run(ResetIfDone(s), input)
  }

  // ---------------------------------------------------------------------
  // A call never waits: it stops exactly when a frame completes or fails
  // ---------------------------------------------------------------------

  /** From a pending state, a run returns exactly when the response becomes
      complete or in error, and otherwise takes every available byte. */
  lemma {:induction false} RunStopsWhenDone(s: RxState, input: seq<uint8>)
    requires s.Valid() && !s.Done()
    ensures Run(s, input).returned <==> Run(s, input).state.Done()
    decreases |input|
  {
    if input != [] {
      var r := Step(s, input[0]);
      if !r.returned {
        RunStopsWhenDone(r.state, input[1..]);
      }
    }
  }

  /** `readPacket` returns as soon as a packet is parsed or an error occurs,
      and when neither happens it has consumed all the input. */
  lemma ReadPacketNeverWaits(s: RxState, input: seq<uint8>)
    requires s.Valid()
    ensures ReadPacket(s, input).returned <==> ReadPacket(s, input).state.Done()
    ensures !ReadPacket(s, input).state.Done() ==> ReadPacket(s, input).consumed == |input|
  {
    RunStopsWhenDone(ResetIfDone(s), input);
  }

  /** A call on a complete or failed response discards it even when no byte
      is available, and a call on a pending response with no input changes nothing. */
  lemma ReadPacketResets(s: RxState)
    requires s.Valid()
    ensures s.Done() ==> ReadPacket(s, []).state == ResetIfDone(s) && !ReadPacket(s, []).state.ready
    ensures !s.Done() ==> ReadPacket(s, []) == Outcome(s, 0, false)
  {
  }

  // ---------------------------------------------------------------------
  // Chunked input
  // ---------------------------------------------------------------------

  /** Folding the loop over `a + b`: a run that returns inside `a` never
      sees `b`; one that does not continues on `b` from where `a` left it. */
  lemma {:induction false} RunAppend(s: RxState, a: seq<uint8>, b: seq<uint8>)
    requires s.Valid()
    ensures Run(s, a).returned ==> Run(s, a + b) == Run(s, a)
    ensures !Run(s, a).returned ==> Run(s, a + b) == Shift(Run(Run(s, a).state, b), |a|)
    decreases |a|
  {
    if a == [] {
      assert a + b == b;
    } else {
      assert (a + b)[0] == a[0];
      assert (a + b)[1..] == a[1..] + b;
      var r := Step(s, a[0]);
      if !r.returned {
        RunAppend(r.state, a[1..], b);
      }
    }
  }

  /** Feeding a stream in two calls gives the same response as feeding it
      in one, as long as the first call ran out of input rather than returning. */
  lemma ChunkedReadPacket(s: RxState, a: seq<uint8>, b: seq<uint8>)
    requires s.Valid() && !ReadPacket(s, a).returned
    ensures ReadPacket(ReadPacket(s, a).state, b).state == ReadPacket(s, a + b).state
    ensures ReadPacket(ReadPacket(s, a).state, b).returned == ReadPacket(s, a + b).returned
    ensures ReadPacket(s, a + b).consumed == |a| + ReadPacket(ReadPacket(s, a).state, b).consumed
  {
    var s0 := ResetIfDone(s);
    RunStopsWhenDone(s0, a);
    RunAppend(s0, a, b);
  }

  // ---------------------------------------------------------------------
  // Hunting, delimiters inside a frame, zero-length frames
  // ---------------------------------------------------------------------

  /** At position 0 every byte other than the delimiter is discarded. */
  lemma {:induction false} IdleDiscardsNoise(s: RxState, input: seq<uint8>)
    requires s.Valid() && s.Idle()
    requires forall i :: 0 <= i < |input| ==> input[i] != XB_START
    ensures Run(s, input) == Outcome(s, |input|, false)
    decreases |input|
  {
    if input != [] {
      assert Step(s, input[0]) == StepResult(s, false);
      IdleDiscardsNoise(s, input[1..]);
    }
  }

  /** A delimiter inside a frame is consumed, sets UNEXPECTED_START and ends the call. */
  lemma UnexpectedStart(s: RxState, rest: seq<uint8>)
    requires s.Valid() && s.pos > 0
    ensures Run(s, [XB_START] + rest) == Outcome(s.(errorCode := UNEXPECTED_START), 1, true)
  {
  }

  /** The consumed delimiter is lost: when a new frame interrupts a pending
      one, the first call fails with UNEXPECTED_START after its delimiter, and
      the next call, hunting for a fresh delimiter, discards the rest of that
      frame without completing it. */
  lemma InterruptingFrameIsLost(s: RxState, f: WireFrame)
    requires s.Valid() && !s.Done() && s.pos > 0
    ensures ReadPacket(s, Encode(f)).state.errorCode == UNEXPECTED_START
    ensures ReadPacket(s, Encode(f)).consumed == 1 && ReadPacket(s, Encode(f)).returned
    ensures var next := ReadPacket(ReadPacket(s, Encode(f)).state, Encode(f)[1..]);
            !next.returned && !next.state.ready && next.state.pos == 0
            && next.consumed == |Encode(f)| - 1
  {
    var w := Encode(f);
    EncodeFrames(f);
    assert w == [XB_START] + w[1..];
    UnexpectedStart(s, w[1..]);
    var e := ReadPacket(s, w).state;
    var e0 := ResetIfDone(e);
    assert e0.Idle();
    IdleDiscardsNoise(e0, w[1..]);
  }

  /** A frame whose length bytes are both 0 never completes: the end test
      sits in the payload branch, which position 3 never reaches. */
  lemma {:induction false} ZeroLengthNeverReady(s: RxState, input: seq<uint8>)
    requires s.Valid() && s.pos >= 3 && s.FrameDataLength() == 0 && !s.ready
    ensures !Run(s, input).state.ready
    decreases |input|
  {
    if input != [] {
      var r := Step(s, input[0]);
      if !r.returned {
        ZeroLengthNeverReady(r.state, input[1..]);
      }
    }
  }

  // ---------------------------------------------------------------------
  // Decoding what the encoder sends
  // ---------------------------------------------------------------------

  /** Overwrite `p.Length` bytes of `buffer` starting at `k`. */
  function Splice(buffer: seq<uint8>, k: nat, p: seq<uint8>): (r: seq<uint8>)
    requires k + |p| <= |buffer|
    ensures |r| == |buffer| && r[k..k + |p|] == p
    ensures r[..k] == buffer[..k] && r[k + |p|..] == buffer[k + |p|..]
  {
    buffer[..k] + p + buffer[k + |p|..]
  }

  /** A one-byte input is one step. */
  lemma RunOne(s: RxState, c: uint8)
    requires s.Valid()
    ensures Run(s, [c]) == Outcome(Step(s, c).state, 1, Step(s, c).returned)
  {
    assert [c][1..] == [];
  }

  /** A payload byte before the checksum position is stored at `pos - 4`. */
  lemma AbsorbStores(s: RxState, b: uint8)
    requires s.Valid() && CMD_DATA_OFFSET <= s.pos <= MAX_CMD_DATA_SIZE
    requires s.pos != s.FrameDataLength() + 3
    ensures Absorb(s, b) == StepResult(Stored(s, b), false)
  {
  }

  /** The byte at the checksum position ends the frame: ready with the
      checksum stored when the sum closes to 0xFF, CHECKSUM_FAILURE otherwise. */
  lemma AbsorbEnds(s: RxState, b: uint8)
    requires s.Valid() && CMD_DATA_OFFSET <= s.pos <= MAX_CMD_DATA_SIZE
    requires s.pos == s.FrameDataLength() + 3
    ensures var total := (s.checksumTotal + b) % 256;
            var t := s.(escape := false, pos := 0, checksumTotal := 0);
            Absorb(s, b) ==
            StepResult(if total == 0xFF then t.(checksum := b, ready := true, errorCode := NO_ERROR)
                       else t.(errorCode := CHECKSUM_FAILURE), true)
  {
  }

  /** Inside a frame the escape byte only raises the flag. */
  lemma StepEscape(s: RxState)
    requires s.Valid() && 0 < s.pos <= MAX_CMD_DATA_SIZE
    ensures Step(s, XB_ESCAPE) == StepResult(s.(escape := true), false)
  {
  }

  /** Inside a frame any other byte than the delimiter and the escape byte
      is absorbed, XOR 0x20 when it follows an escape byte. */
  lemma StepPlain(s: RxState, c: uint8)
    requires s.Valid() && 0 < s.pos <= MAX_CMD_DATA_SIZE && c != XB_START && c != XB_ESCAPE
    ensures Step(s, c) == Absorb(s, if s.escape then Xor20(c) else c)
  {
  }

  /** The escape flag is cleared before a byte is absorbed, so absorbing
      does not depend on it. */
  lemma AbsorbIgnoresEscape(s: RxState, b: uint8)
    requires s.Valid() && s.pos <= MAX_CMD_DATA_SIZE
    ensures Absorb(s.(escape := true), b) == Absorb(s, b)
  {
    assert Summed(s.(escape := true), b) == Summed(s, b);
  }

  /** An escape byte inside a frame only raises the flag; the byte after
      it, XOR 0x20, is then absorbed as the reserved byte it stands for. */
  lemma FeedReserved(s: RxState, b: uint8)
    requires s.Valid() && 0 < s.pos <= MAX_CMD_DATA_SIZE && !s.escape && IsReserved(b)
    ensures Run(s, [XB_ESCAPE, Xor20(b)]) == Outcome(Absorb(s, b).state, 2, Absorb(s, b).returned)
  {
    var e := s.(escape := true);
    var x := Xor20(b);
    StuffedIsPlain(b);
    Xor20Involution(b);
    StepEscape(s);
    StepPlain(e, x);
    AbsorbIgnoresEscape(s, b);
    RunOne(e, x);
    assert [XB_ESCAPE, x][1..] == [x];
  }

  /** One escaped byte, inside a frame, is absorbed as the byte it stands for. */
  lemma FeedByte(s: RxState, b: uint8)
    requires s.Valid() && 0 < s.pos <= MAX_CMD_DATA_SIZE && !s.escape
    ensures Run(s, SendByte(b, true)) ==
            Outcome(Absorb(s, b).state, |SendByte(b, true)|, Absorb(s, b).returned)
  {
    if IsReserved(b) {
      FeedReserved(s, b);
    } else {
      StepPlain(s, b);
      RunOne(s, b);
    }
  }

  /** The state after the payload bytes `p`, taken from `s` on: stored from
      buffer index `pos - 4` on, added to the running sum, position advanced. */
  function Fed(s: RxState, p: seq<uint8>): (r: RxState)
    requires s.Valid() && CMD_DATA_OFFSET <= s.pos && s.pos + |p| <= MAX_CMD_DATA_SIZE + 1
    ensures r.Valid()
  {
    s.(pos := s.pos + |p|,
       checksumTotal := (s.checksumTotal + SumBytes(p)) % 256,
       cmdData := Splice(s.cmdData, s.pos - CMD_DATA_OFFSET, p))
  }

  /** The state after one payload byte, as `AbsorbStores` describes it. */
  function Stored(s: RxState, b: uint8): (r: RxState)
    requires s.Valid() && CMD_DATA_OFFSET <= s.pos <= MAX_CMD_DATA_SIZE
    ensures r.Valid()
  {
    s.(escape := false, checksumTotal := (s.checksumTotal + b) % 256,
       cmdData := s.cmdData[s.pos - CMD_DATA_OFFSET := b], pos := s.pos + 1)
  }

  /** Writing the first byte and then splicing the rest after it is
      splicing the whole sequence. */
  lemma SpliceCons(buffer: seq<uint8>, k: nat, p: seq<uint8>)
    requires p != [] && k + |p| <= |buffer|
    ensures Splice(buffer[k := p[0]], k + 1, p[1..]) == Splice(buffer, k, p)
  {
    var t := buffer[k := p[0]];
    assert t[..k + 1] == buffer[..k] + [p[0]];
    assert t[k + 1 + |p[1..]|..] == buffer[k + |p|..];
    assert [p[0]] + p[1..] == p;
  }

  /** Storing a first payload byte and then the rest is storing them all. */
  lemma FedCons(s: RxState, p: seq<uint8>)
    requires s.Valid() && !s.escape && p != []
    requires CMD_DATA_OFFSET <= s.pos && s.pos + |p| <= MAX_CMD_DATA_SIZE + 1
    ensures Fed(Stored(s, p[0]), p[1..]) == Fed(s, p)
  {
    var k := s.pos - CMD_DATA_OFFSET;
    var t := Stored(s, p[0]);
    assert SumBytes(p) == p[0] + SumBytes(p[1..]);
    ModAccumulate(s.checksumTotal + p[0], SumBytes(p[1..]));
    SpliceCons(s.cmdData, k, p);
  }

  /** The inductive step of `FeedPayload`: one escaped byte, then the rest. */
  lemma FeedPayloadCons(s: RxState, p: seq<uint8>)
    requires s.Valid() && !s.escape && p != []
    requires CMD_DATA_OFFSET <= s.pos && s.pos + |p| <= MAX_CMD_DATA_SIZE + 1
    requires s.pos + |p| <= s.FrameDataLength() + 3
    requires Run(Stored(s, p[0]), EscapeAll(p[1..])) ==
             Outcome(Fed(Stored(s, p[0]), p[1..]), |EscapeAll(p[1..])|, false)
    ensures Run(s, EscapeAll(p)) == Outcome(Fed(s, p), |EscapeAll(p)|, false)
  {
    var head := SendByte(p[0], true);
    var rest := EscapeAll(p[1..]);
    var t := Stored(s, p[0]);
    assert EscapeAll(p) == head + rest;
    FeedByte(s, p[0]);
    AbsorbStores(s, p[0]);
    assert Run(s, head) == Outcome(t, |head|, false);
    RunAppend(s, head, rest);
    FedCons(s, p);
  }

  /** Payload bytes, escaped, are stored one after the other from buffer
      index `pos - 4` on and added to the running sum, as long as neither
      the checksum position nor the end of the buffer is reached. */
  lemma {:induction false} FeedPayload(s: RxState, p: seq<uint8>)
    requires s.Valid() && !s.escape
    requires CMD_DATA_OFFSET <= s.pos && s.pos + |p| <= MAX_CMD_DATA_SIZE + 1
    requires s.pos + |p| <= s.FrameDataLength() + 3
    ensures Run(s, EscapeAll(p)) == Outcome(Fed(s, p), |EscapeAll(p)|, false)
    decreases |p|
  {
    if p == [] {
      assert Splice(s.cmdData, s.pos - CMD_DATA_OFFSET, p) == s.cmdData;
      assert EscapeAll(p) == [];
    } else {
      FeedPayload(Stored(s, p[0]), p[1..]);
      FeedPayloadCons(s, p);
    }
  }

  /** The state once the delimiter, the length bytes and `cmdId` of `f` are read. */
  function Headed(s: RxState, f: WireFrame): (r: RxState)
    requires s.Valid()
    ensures r.Valid()
  {
    s.(pos := 4, msbLength := f.msbLength, lsbLength := f.lsbLength,
       cmdId := f.cmdId, checksumTotal := f.cmdId)
  }

  /** The two length bytes, escaped, are recorded at positions 1 and 2. */
  lemma FeedLength(s: RxState, msb: uint8, lsb: uint8)
    requires s.Valid() && s.pos == 1 && !s.escape
    ensures Run(s, SendByte(msb, true) + SendByte(lsb, true)) ==
            Outcome(s.(msbLength := msb, lsbLength := lsb, pos := 3),
                    |SendByte(msb, true)| + |SendByte(lsb, true)|, false)
  {
    var s2 := s.(msbLength := msb, pos := 2);
    FeedByte(s, msb);
    assert Absorb(s, msb) == StepResult(s2, false);
    FeedByte(s2, lsb);
    assert Absorb(s2, lsb) == StepResult(s.(msbLength := msb, lsbLength := lsb, pos := 3), false);
    RunAppend(s, SendByte(msb, true), SendByte(lsb, true));
  }

  /** The `cmdId` byte, escaped, is recorded at position 3 and starts the sum. */
  lemma FeedCmdId(s: RxState, id: uint8)
    requires s.Valid() && s.pos == 3 && !s.escape && s.checksumTotal == 0
    ensures Run(s, SendByte(id, true)) ==
            Outcome(s.(cmdId := id, pos := 4, checksumTotal := id), |SendByte(id, true)|, false)
  {
    FeedByte(s, id);
    assert Absorb(s, id) == StepResult(s.(cmdId := id, pos := 4, checksumTotal := id), false);
  }

  /** The three header bytes, escaped, as one piece. */
  lemma EscapeHeader(f: WireFrame)
    ensures EscapeAll([f.msbLength, f.lsbLength, f.cmdId]) ==
            (SendByte(f.msbLength, true) + SendByte(f.lsbLength, true)) + SendByte(f.cmdId, true)
  {
    assert EscapeAll([f.cmdId]) == SendByte(f.cmdId, true) by {
      assert [f.cmdId][1..] == [];
    }
    assert EscapeAll([f.lsbLength, f.cmdId]) == SendByte(f.lsbLength, true) + SendByte(f.cmdId, true) by {
      assert [f.lsbLength, f.cmdId][1..] == [f.cmdId];
    }
    assert [f.msbLength, f.lsbLength, f.cmdId][1..] == [f.lsbLength, f.cmdId];
  }

  /** The delimiter and the three header bytes take a state between frames
      to position 4 with length and `cmdId` recorded and the sum started. */
  lemma FeedHeader(s: RxState, f: WireFrame)
    requires s.Valid() && s.pos == 0 && !s.escape && s.checksumTotal == 0
    ensures Run(s, [XB_START] + EscapeAll([f.msbLength, f.lsbLength, f.cmdId])) ==
            Outcome(Headed(s, f), 1 + |EscapeAll([f.msbLength, f.lsbLength, f.cmdId])|, false)
  {
    var s1 := s.(pos := 1);
    var s3 := s1.(msbLength := f.msbLength, lsbLength := f.lsbLength, pos := 3);
    var ab := SendByte(f.msbLength, true) + SendByte(f.lsbLength, true);
    var c := SendByte(f.cmdId, true);
    EscapeHeader(f);
    assert Run(s, [XB_START]) == Outcome(s1, 1, false);
    FeedLength(s1, f.msbLength, f.lsbLength);
    FeedCmdId(s3, f.cmdId);
    RunAppend(s1, ab, c);
    RunAppend(s, [XB_START], ab + c);
  }

  /** The wire image of a frame, cut where the decoder's phases change. */
  lemma EncodeSplits(f: WireFrame)
    ensures Encode(f) == ([XB_START] + EscapeAll([f.msbLength, f.lsbLength, f.cmdId]))
                         + (EscapeAll(f.payload) + SendByte(f.checksum, true))
  {
    var hdr := [f.msbLength, f.lsbLength, f.cmdId];
    var eh, ep, ec := EscapeAll(hdr), EscapeAll(f.payload), SendByte(f.checksum, true);
    assert Unstuffed(f) == (hdr + f.payload) + [f.checksum];
    EscapeAllAppend(hdr + f.payload, [f.checksum]);
    EscapeAllAppend(hdr, f.payload);
    assert EscapeAll([f.checksum]) == ec by {
      assert [f.checksum][1..] == [];
    }
    assert EscapeAll(Unstuffed(f)) == (eh + ep) + ec;
    assert Encode(f) == [XB_START] + ((eh + ep) + ec);
    assert [XB_START] + ((eh + ep) + ec) == ([XB_START] + eh) + (ep + ec);
  }

  /** A frame whose payload fits the buffer is read up to its checksum
      byte, which is absorbed at the end position and ends the call. */
  lemma FeedFrame(s: RxState, f: WireFrame)
    requires s.Valid() && s.pos == 0 && !s.escape && s.checksumTotal == 0
    requires f.LengthMatches() && |f.payload| <= MAX_CMD_DATA_SIZE - CMD_DATA_OFFSET
    ensures Run(s, Encode(f)) ==
            Outcome(Absorb(Fed(Headed(s, f), f.payload), f.checksum).state, |Encode(f)|, true)
  {
    var hdr := EscapeAll([f.msbLength, f.lsbLength, f.cmdId]);
    var body := EscapeAll(f.payload);
    var tail := SendByte(f.checksum, true);
    var s4 := Headed(s, f);
    var s5 := Fed(s4, f.payload);
    EncodeSplits(f);
    FeedHeader(s, f);
    FeedPayload(s4, f.payload);
    FeedByte(s5, f.checksum);
    AbsorbEnds(s5, f.checksum);
    RunAppend(s4, body, tail);
    RunAppend(s, [XB_START] + hdr, body + tail);
  }

  /** Decoding what `send` writes, starting between frames or after a
      complete or failed response: the call consumes exactly the frame and
      reproduces its length, `cmdId` and payload; it completes with
      NO_ERROR and the checksum byte exactly when the checksum closes, and
      otherwise reports CHECKSUM_FAILURE, stays not ready and leaves the
      checksum field as the reset left it. Frames of 1 to 107 data bytes
      (payloads of at most 106 bytes) are accepted. */
  lemma DecodeEncode(s: RxState, f: WireFrame)
    requires s.Valid() && (s.Done() || s.Idle())
    requires f.LengthMatches() && |f.payload| <= MAX_CMD_DATA_SIZE - CMD_DATA_OFFSET
    ensures var o := ReadPacket(s, Encode(f));
            o.returned && o.consumed == |Encode(f)|
            && o.state.pos == 0 && !o.state.escape && o.state.checksumTotal == 0
            && o.state.msbLength == f.msbLength && o.state.lsbLength == f.lsbLength
            && o.state.cmdId == f.cmdId
            && o.state.cmdData[..|f.payload|] == f.payload
            && o.state.cmdData[|f.payload|..] == s.cmdData[|f.payload|..]
            && (o.state.ready <==> f.ChecksumValid())
            && (f.ChecksumValid() ==> o.state.errorCode == NO_ERROR && o.state.checksum == f.checksum)
            && (!f.ChecksumValid() ==> o.state.errorCode == CHECKSUM_FAILURE && o.state.checksum == ResetIfDone(s).checksum)
  {
    var s0 := ResetIfDone(s);
    var s5 := Fed(Headed(s0, f), f.payload);
    FeedFrame(s0, f);
    AbsorbEnds(s5, f.checksum);
    var total := (s5.checksumTotal + f.checksum) % 256;
    ModAccumulate(f.cmdId + SumBytes(f.payload), f.checksum);
    assert total == 0xFF <==> f.ChecksumValid();
    assert s5.cmdData == Splice(s.cmdData, 0, f.payload);
    var t := s5.(escape := false, pos := 0, checksumTotal := 0);
    assert ReadPacket(s, Encode(f)).state ==
           if total == 0xFF then t.(checksum := f.checksum, ready := true, errorCode := NO_ERROR)
           else t.(errorCode := CHECKSUM_FAILURE);
  }

  /** A payload too long for the receive buffer (107 bytes or more) is
      rejected with PACKET_EXCEEDS_CMD_DATA_LENGTH once the position passes
      110, before its checksum byte is reached. */
  lemma {:induction false} OversizeRejected(s: RxState, f: WireFrame)
    requires s.Valid() && (s.Done() || s.Idle())
    requires f.LengthMatches() && |f.payload| > MAX_CMD_DATA_SIZE - CMD_DATA_OFFSET
    ensures var o := ReadPacket(s, Encode(f));
            o.returned && !o.state.ready && o.state.errorCode == PACKET_EXCEEDS_CMD_DATA_LENGTH
  {
    var s0 := ResetIfDone(s);
    var n := MAX_CMD_DATA_SIZE + 1 - CMD_DATA_OFFSET;
    var front := f.payload[..n];
    var back := f.payload[n..] + [f.checksum];
    var hdr := EscapeAll([f.msbLength, f.lsbLength, f.cmdId]);
    EncodeSplitsAt(f, n);
    FeedHeader(s0, f);
    var s4 := Headed(s0, f);
    FeedPayload(s4, front);
    var s5 := Run(s4, EscapeAll(front)).state;
    assert s5.pos == MAX_CMD_DATA_SIZE + 1;
    var w := EscapeAll(back);
    EscapedIsClean(back);
    assert w != [] && w[0] != XB_START;
    assert Run(s5, w).returned && Run(s5, w).state.errorCode == PACKET_EXCEEDS_CMD_DATA_LENGTH;
    RunAppend(s4, EscapeAll(front), w);
    RunAppend(s0, [XB_START] + hdr, EscapeAll(front) + w);
  }

  /** The wire form of a frame cut after `n` payload bytes: delimiter and
      header, the first `n` payload bytes escaped, then the rest of the
      payload and the checksum escaped. */
  lemma EncodeSplitsAt(f: WireFrame, n: nat)
    requires n <= |f.payload|
    ensures Encode(f) == ([XB_START] + EscapeAll([f.msbLength, f.lsbLength, f.cmdId]))
                         + (EscapeAll(f.payload[..n]) + EscapeAll(f.payload[n..] + [f.checksum]))
  {
    var front := f.payload[..n];
    var back := f.payload[n..] + [f.checksum];
    assert f.payload + [f.checksum] == front + back;
    EscapeAllAppend(f.payload, [f.checksum]);
    EscapeAllAppend(front, back);
    assert EscapeAll([f.checksum]) == SendByte(f.checksum, true) by {
      assert [f.checksum][1..] == [];
    }
    EncodeSplits(f);
  }

  /** A single corrupted payload byte is caught: the frame is reported as a
      CHECKSUM_FAILURE and never becomes ready. */
  lemma CorruptionDetected(s: RxState, f: WireFrame, i: nat, b: uint8)
    requires s.Valid() && (s.Done() || s.Idle())
    requires f.LengthMatches() && |f.payload| <= MAX_CMD_DATA_SIZE - CMD_DATA_OFFSET
    requires f.ChecksumValid() && i < |f.payload| && b != f.payload[i]
    ensures var o := ReadPacket(s, Encode(f.(payload := f.payload[i := b])));
            !o.state.ready && o.state.errorCode == CHECKSUM_FAILURE
  {
    var g := f.(payload := f.payload[i := b]);
    CorruptionBreaksChecksum(f.cmdId, f.payload, f.checksum, i, b);
    DecodeEncode(s, g);
  }
}
