/** The sending side (`XBee::send`, `XBee::sendByte`): a frame becomes the
    start delimiter followed by the escaped length, `cmdId`, payload and
    checksum bytes. The serial sink is the returned byte sequence. */
module Encoder {
  import opened Bytes
  import opened Protocol
  import opened Frame

  /** `sendByte(b, escape)`: a reserved byte, when escaping is on, goes out
      as the escape byte followed by the byte XOR 0x20; anything else goes
      out as it is. */
  function SendByte(b: uint8, escape: bool): (out: seq<uint8>)
    ensures |out| == (if escape && IsReserved(b) then 2 else 1)
    ensures out[|out| - 1] == b || out[|out| - 1] == Xor20(b)
  {
    if escape && IsReserved(b) then [XB_ESCAPE, Xor20(b)] else [b]
  }

  /** Every byte sent with escaping on, one after the other. */
  function EscapeAll(bs: seq<uint8>): (out: seq<uint8>)
    ensures |bs| <= |out| <= 2 * |bs|
  {
    if bs == [] then [] else SendByte(bs[0], true) + EscapeAll(bs[1..])
  }

  /** The bytes of a frame between the delimiter and the end, unescaped:
      length MSB, length LSB, `cmdId`, payload, checksum. */
  function Unstuffed(f: WireFrame): (bs: seq<uint8>)
    ensures |bs| == |f.payload| + 4
  {
    [f.msbLength, f.lsbLength, f.cmdId] + f.payload + [f.checksum]
  }

  /** `send(request)`: the complete byte stream of one frame. */
  function Encode(f: WireFrame): (wire: seq<uint8>)
    ensures |f.payload| + 5 <= |wire| <= 2 * |f.payload| + 9
    ensures wire[0] == XB_START
  {
    SendByte(XB_START, false) + EscapeAll(Unstuffed(f))
  }

  /** The reference inverse of escaping: an escape byte followed by another
      byte stands for that byte XOR 0x20. */
  function Unescape(wire: seq<uint8>): seq<uint8>
  {
    if wire == [] then []
    else if wire[0] == XB_ESCAPE && |wire| >= 2 then [Xor20(wire[1])] + Unescape(wire[2..])
    else [wire[0]] + Unescape(wire[1..])
  }

  /** Escaping distributes over concatenation, so a byte stream may be sent in pieces. */
  lemma {:induction false} EscapeAllAppend(a: seq<uint8>, b: seq<uint8>)
    ensures EscapeAll(a + b) == EscapeAll(a) + EscapeAll(b)
  {
    if a == [] {
      assert a + b == b;
    } else {
      assert (a + b)[1..] == a[1..] + b;
      EscapeAllAppend(a[1..], b);
    }
  }

  /** Unescaping consumes escaped bytes one at a time. */
  lemma UnescapePrefix(b: uint8, rest: seq<uint8>)
    ensures Unescape(SendByte(b, true) + rest) == [b] + Unescape(rest)
  {
    var w := SendByte(b, true) + rest;
    if IsReserved(b) {
      assert w[2..] == rest;
      Xor20Involution(b);
    } else {
      assert w[1..] == rest;
    }
  }

  /** Unescaping undoes escaping: the receiver recovers every byte the sender escaped. */
  lemma {:induction false} UnescapeEscapeAll(bs: seq<uint8>)
    ensures Unescape(EscapeAll(bs)) == bs
  {
    if bs != [] {
      UnescapeEscapeAll(bs[1..]);
      UnescapePrefix(bs[0], EscapeAll(bs[1..]));
    }
  }

  /** After escaping, no delimiter and no flow-control byte is left on the
      wire, and every escape byte is followed by a stuffed reserved byte. */
  lemma {:induction false} EscapedIsClean(bs: seq<uint8>)
    ensures forall i :: 0 <= i < |EscapeAll(bs)| ==>
              EscapeAll(bs)[i] != XB_START && EscapeAll(bs)[i] != XB_ON && EscapeAll(bs)[i] != XB_OFF
    ensures forall i :: 0 <= i < |EscapeAll(bs)| && EscapeAll(bs)[i] == XB_ESCAPE ==>
              i + 1 < |EscapeAll(bs)| && IsReserved(Xor20(EscapeAll(bs)[i + 1]))
  {
    if bs != [] {
      EscapedIsClean(bs[1..]);
      var head := SendByte(bs[0], true);
      var tail := EscapeAll(bs[1..]);
      assert EscapeAll(bs) == head + tail;
      Xor20Involution(bs[0]);
      forall i | 0 <= i < |head + tail|
        ensures (head + tail)[i] != XB_START && (head + tail)[i] != XB_ON && (head + tail)[i] != XB_OFF
        ensures (head + tail)[i] == XB_ESCAPE ==> i + 1 < |head + tail| && IsReserved(Xor20((head + tail)[i + 1]))
      {
        if i >= |head| {
          assert (head + tail)[i] == tail[i - |head|];
          if i + 1 < |head + tail| {
            assert (head + tail)[i + 1] == tail[i + 1 - |head|];
          }
        }
      }
    }
  }

  /** The start delimiter appears exactly once in a sent frame, at its first
      byte, and the receiver's unescaping of the rest gives back length,
      `cmdId`, payload and checksum in that order. */
  lemma EncodeFrames(f: WireFrame)
    ensures Encode(f)[0] == XB_START
    ensures forall i :: 0 < i < |Encode(f)| ==> Encode(f)[i] != XB_START
    ensures Unescape(Encode(f)[1..]) == Unstuffed(f)
  {
    var body := EscapeAll(Unstuffed(f));
    assert Encode(f) == [XB_START] + body;
    assert Encode(f)[1..] == body;
    EscapedIsClean(Unstuffed(f));
    UnescapeEscapeAll(Unstuffed(f));
    forall i | 0 < i < |Encode(f)| ensures Encode(f)[i] != XB_START {
      assert Encode(f)[i] == body[i - 1];
    }
  }
}
