/** The request builders: the canonical constructor of each request kind,
    the field setters, and the tail setters (`setData`, `setParam`,
    `setCmd`) with their text variants. All of them work on an `ApiFrame`
    in place, through the layout table of its kind. */
module Builders {
  import opened Bytes
  import opened Protocol
  import opened Frame
  import opened Layout
  import opened Wrappers

  /** One byte string per entry of the kind's table, each as wide as its
      field: the arguments a canonical constructor is given (addresses and
      other numbers already in wire order). */
  predicate FitsLayout(k: FrameKind, values: seq<seq<uint8>>)
  {
    Fits(Slots(k), values)
  }

  /** One byte string per entry of a layout, each as wide as its field. */
  predicate Fits(slots: seq<Slot>, values: seq<seq<uint8>>)
  {
    |values| == |slots| && forall i :: 0 <= i < |values| ==> |values[i]| == Width(slots[i].field)
  }

  /** The field setters of a constructor, one after the other: afterwards
      every entry of the layout holds the bytes given for it. */
  method WriteFields(frame: ApiFrame, slots: seq<Slot>, head: nat, values: seq<seq<uint8>>)
    requires Disjoint(slots, head) && Fits(slots, values)
    requires frame.Valid() && head <= frame.CmdDataLength()
    modifies frame, frame.cmdData
    ensures frame.Valid() && frame.cmdData == old(frame.cmdData) && frame.CmdDataLength() == old(frame.CmdDataLength())
    ensures frame.cmdId == old(frame.cmdId) && frame.ready == old(frame.ready) && frame.errorCode == old(frame.errorCode)
    ensures frame.Payload()[head..] == old(frame.Payload())[head..]
    ensures forall j :: 0 <= j < |slots| ==>
              slots[j].End() <= head && frame.Payload()[slots[j].offset..slots[j].End()] == values[j]
  {
    ghost var start := frame.Payload();
    var i := 0;
    while i < |values|
      invariant 0 <= i <= |values|
      invariant frame.Valid() && frame.cmdData == old(frame.cmdData) && frame.CmdDataLength() == old(frame.CmdDataLength())
      invariant frame.cmdId == old(frame.cmdId) && frame.ready == old(frame.ready) && frame.errorCode == old(frame.errorCode)
      invariant frame.Payload()[head..] == start[head..]
      invariant forall j :: 0 <= j < i ==>
                  slots[j].End() <= head && frame.Payload()[slots[j].offset..slots[j].End()] == values[j]
    {
      DisjointMeans(slots, head, i, i);
      ghost var before := frame.Payload();
      frame.WriteBytes(slots[i].offset, values[i], false);
      assert frame.Payload() == WriteSlot(before, slots[i], values[i]);
      WriteSlotKeepsTail(before, slots[i], values[i], head);
      forall j | 0 <= j < i
        ensures frame.Payload()[slots[j].offset..slots[j].End()] == values[j]
      {
        WriteSlotKeeps(before, slots, head, i, j, values[i]);
      }
      i := i + 1;
    }
  }

  /** The canonical constructor of a request kind: a buffer of
      `HEAD + |tail|` bytes, the length bytes set to match, every field of
      the head written in table order, the tail copied after the head, and
      the checksum computed last. */
  method Build(k: FrameKind, values: seq<seq<uint8>>, tail: seq<uint8>) returns (frame: ApiFrame)
    requires IsRequest(k) && FitsLayout(k, values) && Head(k) + |tail| < 0xFFFF
    ensures fresh(frame) && fresh(frame.cmdData)
    ensures frame.Valid() && frame.cmdId == ApiId(k) && !frame.ready && frame.errorCode == NO_ERROR
    ensures frame.CmdDataLength() == Head(k) + |tail|
    ensures forall i :: 0 <= i < |values| ==> Get(frame.Payload(), k, Slots(k)[i].field) == Some(values[i])
    ensures Tail(frame.Payload(), k) == tail
    ensures frame.Wire().ChecksumValid()
  {
    frame := new ApiFrame();
    frame.cmdId := ApiId(k);
    var buffer := new uint8[Head(k) + |tail|](_ => 0);
    frame.SetCmdData(buffer);
    frame.SetCmdDataLength(Head(k) + |tail|);
    LayoutWellFormed(k);
    var slots, head := Slots(k), Head(k);
    WriteFields(frame, slots, head, values);
    ghost var fields := frame.Payload();
    frame.WriteBytes(head, tail, false);
    assert frame.Payload() == fields[..head] + tail;
    NewTailKeepsFields(fields, tail, slots, head, values);
    FieldsReadBack(k, values, frame.Payload());
    frame.SetChecksum();
  }

  /** Replacing what follows the head leaves every entry of the layout. */
  lemma NewTailKeepsFields(p: seq<uint8>, tail: seq<uint8>, slots: seq<Slot>, head: nat, values: seq<seq<uint8>>)
    requires head <= |p| && |values| == |slots|
    requires forall j :: 0 <= j < |slots| ==> slots[j].End() <= head && p[slots[j].offset..slots[j].End()] == values[j]
    ensures forall j :: 0 <= j < |slots| ==>
              slots[j].End() <= head && (p[..head] + tail)[slots[j].offset..slots[j].End()] == values[j]
  {
    forall j | 0 <= j < |slots|
      ensures (p[..head] + tail)[slots[j].offset..slots[j].End()] == values[j]
    {
      assert (p[..head] + tail)[slots[j].offset..slots[j].End()] == p[slots[j].offset..slots[j].End()];
    }
  }

  /** Once every entry of a kind's table holds its bytes, every getter of the
      kind reads those bytes. */
  lemma FieldsReadBack(k: FrameKind, values: seq<seq<uint8>>, p: seq<uint8>)
    requires Head(k) <= |p| && |values| == |Slots(k)|
    requires forall j :: 0 <= j < |Slots(k)| ==>
               Slots(k)[j].End() <= Head(k) && p[Slots(k)[j].offset..Slots(k)[j].End()] == values[j]
    ensures forall j :: 0 <= j < |values| ==> Get(p, k, Slots(k)[j].field) == Some(values[j])
  {
    forall j | 0 <= j < |values|
      ensures Get(p, k, Slots(k)[j].field) == Some(values[j])
    {
      SlotOfIndex(k, j);
    }
  }

  /** A request's head is covered by its fields, so two payloads of the
      kind that agree on every field and on the tail are the same payload:
      the constructor's arguments determine every byte it sends. */
  lemma {:induction false} FieldsDetermine(k: FrameKind, p: seq<uint8>, q: seq<uint8>)
    requires IsRequest(k) && Head(k) <= |p| && Head(k) <= |q|
    requires forall i :: 0 <= i < |Slots(k)| ==> Get(p, k, Slots(k)[i].field) == Get(q, k, Slots(k)[i].field)
    requires Tail(p, k) == Tail(q, k)
    ensures p == q
  {
    LayoutWellFormed(k);
    var slots, head := Slots(k), Head(k);
    forall i | 0 <= i < |slots|
      ensures slots[i].End() <= head && p[slots[i].offset..slots[i].End()] == q[slots[i].offset..slots[i].End()]
    {
      SlotOfIndex(k, i);
    }
    SlicesDetermine(slots, head, p, q);
  }

  /** In a packed layout, payloads that agree on every entry and after the
      head are equal. */
  lemma {:induction false} SlicesDetermine(slots: seq<Slot>, head: nat, p: seq<uint8>, q: seq<uint8>)
    requires Packed(slots, head) && head <= |p| && head <= |q| && p[head..] == q[head..]
    requires forall i :: 0 <= i < |slots| ==>
               slots[i].End() <= head && p[slots[i].offset..slots[i].End()] == q[slots[i].offset..slots[i].End()]
    ensures p == q
  {
    assert |p| == |q|;
    forall m | 0 <= m < head
      ensures p[m] == q[m]
    {
      var j := PackedCovers(slots, head, 0, m);
      assert p[m] == p[slots[j].offset..slots[j].End()][m - slots[j].offset];
      assert q[m] == q[slots[j].offset..slots[j].End()][m - slots[j].offset];
    }
    forall m | head <= m < |p|
      ensures p[m] == q[m]
    {
      assert p[m] == p[head..][m - head];
      assert q[m] == q[head..][m - head];
    }
  }

  /** In a packed layout every byte before the head belongs to a field. */
  lemma {:induction false} PackedCovers(slots: seq<Slot>, head: nat, i: nat, m: nat) returns (j: nat)
    requires PackedFrom(slots, head, i) && slots[i].offset <= m < head
    ensures i <= j < |slots| && slots[j].offset <= m < slots[j].End()
    decreases |slots| - i
  {
    if m < slots[i].End() {
      j := i;
    } else {
      j := PackedCovers(slots, head, i + 1, m);
    }
  }

  /** `AtQueueCommand`'s constructor: the `AtCommand` constructor, then the
      frame type replaced by 0x09 and the checksum recomputed. */
  method BuildAtQueueCommand(values: seq<seq<uint8>>, param: seq<uint8>) returns (frame: ApiFrame)
    requires FitsLayout(AtCommand, values) && AT_COMMAND_HEAD + |param| < 0xFFFF
    ensures fresh(frame) && fresh(frame.cmdData)
    ensures frame.Valid() && frame.cmdId == AT_QUEUE_COMMAND && !frame.ready && frame.errorCode == NO_ERROR
    ensures frame.CmdDataLength() == Head(AtQueueCommand) + |param|
    ensures forall i :: 0 <= i < |values| ==> Get(frame.Payload(), AtQueueCommand, Slots(AtQueueCommand)[i].field) == Some(values[i])
    ensures Tail(frame.Payload(), AtQueueCommand) == param
    ensures frame.Wire().ChecksumValid()
  {
    frame := Build(AtCommand, values, param);
    frame.cmdId := AT_QUEUE_COMMAND;
    frame.SetChecksum();
  }

  /** A field setter: the field's bytes written at its offset, and the
      checksum recomputed if asked to. */
  method SetField(frame: ApiFrame, k: FrameKind, f: Field, bytes: seq<uint8>, performChecksum: bool)
    requires frame.Valid() && Head(k) <= frame.CmdDataLength() && SlotOf(k, f).Some? && |bytes| == Width(f)
    modifies frame, frame.cmdData
    ensures frame.Valid() && frame.cmdData == old(frame.cmdData) && frame.CmdDataLength() == old(frame.CmdDataLength())
    ensures frame.Payload() == WriteSlot(old(frame.Payload()), SlotOf(k, f).value, bytes)
    ensures Get(frame.Payload(), k, f) == Some(bytes)
    ensures forall g :: g != f ==> Get(frame.Payload(), k, g) == Get(old(frame.Payload()), k, g)
    ensures Tail(frame.Payload(), k) == Tail(old(frame.Payload()), k)
    ensures frame.checksum == if performChecksum then ChecksumOf(frame.cmdId, frame.Payload()) else old(frame.checksum)
    ensures frame.cmdId == old(frame.cmdId) && frame.ready == old(frame.ready) && frame.errorCode == old(frame.errorCode)
  {
    ghost var before := frame.Payload();
    var s := SlotOf(k, f).value;
    frame.WriteBytes(s.offset, bytes, performChecksum);
    forall g
      ensures Get(frame.Payload(), k, f) == Some(bytes)
      ensures g != f ==> Get(frame.Payload(), k, g) == Get(before, k, g)
      ensures Tail(frame.Payload(), k) == Tail(before, k)
    {
      GetAfterWrite(before, k, f, g, bytes);
    }
  }

  /** A numeric field setter: the value written most significant byte first,
      so the big-endian getter reads it back. */
  method SetFieldValue(frame: ApiFrame, k: FrameKind, f: Field, v: nat, performChecksum: bool)
    requires frame.Valid() && Head(k) <= frame.CmdDataLength() && SlotOf(k, f).Some? && v < Pow256(Width(f))
    modifies frame, frame.cmdData
    ensures frame.Valid() && frame.cmdData == old(frame.cmdData) && frame.CmdDataLength() == old(frame.CmdDataLength())
    ensures Get(frame.Payload(), k, f) == Some(ToBigEndian(v, Width(f)))
    ensures GetValue(frame.Payload(), k, f) == Some(v)
    ensures forall g :: g != f ==> Get(frame.Payload(), k, g) == Get(old(frame.Payload()), k, g)
    ensures Tail(frame.Payload(), k) == Tail(old(frame.Payload()), k)
    ensures frame.checksum == if performChecksum then ChecksumOf(frame.cmdId, frame.Payload()) else old(frame.checksum)
    ensures frame.cmdId == old(frame.cmdId) && frame.ready == old(frame.ready) && frame.errorCode == old(frame.errorCode)
  {
    BigEndianRoundTrip(v, Width(f));
    SetField(frame, k, f, ToBigEndian(v, Width(f)), performChecksum);
  }

  /** `setData` / `setParam` of a kind: the head kept, the tail replaced
      (the buffer reallocated only when the tail length changes), every
      field left as it was. */
  method SetData(frame: ApiFrame, k: FrameKind, tail: seq<uint8>, performChecksum: bool)
    requires frame.Valid() && Head(k) <= frame.CmdDataLength() && Head(k) + |tail| < 0xFFFF
    modifies frame, frame.cmdData
    ensures frame.Valid() && frame.CmdDataLength() == Head(k) + |tail|
    ensures Tail(frame.Payload(), k) == tail
    ensures forall f :: Get(frame.Payload(), k, f) == Get(old(frame.Payload()), k, f)
    ensures old(frame.CmdDataLength()) - Head(k) == |tail| ==> frame.cmdData == old(frame.cmdData)
    ensures old(frame.CmdDataLength()) - Head(k) != |tail| ==> fresh(frame.cmdData)
    ensures frame.checksum == if performChecksum then ChecksumOf(frame.cmdId, frame.Payload()) else old(frame.checksum)
    ensures frame.cmdId == old(frame.cmdId) && frame.ready == old(frame.ready) && frame.errorCode == old(frame.errorCode)
  {
    ghost var before := frame.Payload();
    frame.SetTail(Head(k), tail, performChecksum);
    SameHeadSameFields(frame.Payload(), before, k);
  }

  // ---------------------------------------------------------------------
  // The text setters
  // ---------------------------------------------------------------------

  /** The ASCII digits '0'..'9' become the values 0..9; every other
      character is kept. */
  function DigitValue(c: uint8): (r: uint8)
    ensures '0' as uint8 <= c <= '9' as uint8 ==> r < 10 && r as int + '0' as int == c as int
    ensures !('0' as uint8 <= c <= '9' as uint8) ==> r == c
  {
    if '0' as uint8 <= c <= '9' as uint8 then c - '0' as uint8 else c
  }

  /** The text with every ASCII digit replaced by its value. */
  function MapDigits(text: seq<uint8>): (r: seq<uint8>)
    ensures |r| == |text|
    ensures forall i :: 0 <= i < |text| ==> r[i] == DigitValue(text[i])
  {
    seq(|text|, i requires 0 <= i < |text| => DigitValue(text[i]))
  }

  /** A mapped text has no ASCII digit left, so mapping it again changes
      nothing. */
  lemma MapDigitsIdempotent(text: seq<uint8>)
    ensures MapDigits(MapDigits(text)) == MapDigits(text)
    ensures forall i :: 0 <= i < |text| ==> !('0' as uint8 <= MapDigits(text)[i] <= '9' as uint8)
  {
  }

  /** The NUL-terminated text as the `const char*` setters see it: the
      characters before the terminator. */
  predicate IsText(text: seq<uint8>)
  {
    0 !in text
  }

  /** Whether a kind's `const char*` data or parameter setter maps digits:
      those of `TxRequest`, `ExplicitTxRequest` and `AtCommand` (inherited
      by `AtQueueCommand`) do; those of the 64- and 16-bit transmit
      requests copy the text verbatim. */
  predicate MapsDigits(k: FrameKind)
  {
    k.TxRequest? || k.ExplicitTxRequest? || k.AtCommand? || k.AtQueueCommand?
  }

  /** The kinds with a `const char*` data or parameter setter. */
  predicate HasTextSetter(k: FrameKind)
  {
    MapsDigits(k) || k.Tx64Request? || k.Tx16Request?
  }

  /** `setData(const char*)` / `setParam(const char*)`: the text (digits
      mapped where the kind does so) becomes the tail. The `AtCommand`
      version recomputes the checksum whatever its flag says. */
  method SetDataText(frame: ApiFrame, k: FrameKind, text: seq<uint8>, performChecksum: bool)
    requires HasTextSetter(k) && IsText(text)
    requires frame.Valid() && Head(k) <= frame.CmdDataLength() && Head(k) + |text| < 0xFFFF
    modifies frame, frame.cmdData
    ensures frame.Valid() && frame.CmdDataLength() == Head(k) + |text|
    ensures Tail(frame.Payload(), k) == if MapsDigits(k) then MapDigits(text) else text
    ensures forall f :: Get(frame.Payload(), k, f) == Get(old(frame.Payload()), k, f)
    ensures old(frame.CmdDataLength()) - Head(k) == |text| ==> frame.cmdData == old(frame.cmdData)
    ensures old(frame.CmdDataLength()) - Head(k) != |text| ==> fresh(frame.cmdData)
    ensures frame.checksum ==
              if performChecksum || k.AtCommand? || k.AtQueueCommand? then ChecksumOf(frame.cmdId, frame.Payload())
              else old(frame.checksum)
    ensures frame.cmdId == old(frame.cmdId) && frame.ready == old(frame.ready) && frame.errorCode == old(frame.errorCode)
  {
    if k.AtCommand? || k.AtQueueCommand? {
      SetData(frame, k, MapDigits(text), true);
    } else if MapsDigits(k) {
      SetData(frame, k, MapDigits(text), performChecksum);
    } else {
      SetData(frame, k, text, performChecksum);
    }
  }

  /** `RemoteAtCommand::setCmd(const char*)`: the command text, digits
      mapped, written from offset 12. A two-character command overwrites
      the command field in place and keeps the parameter; any other length
      replaces everything from offset 12 on, dropping the parameter. */
  method SetRemoteCmdText(frame: ApiFrame, text: seq<uint8>, performChecksum: bool)
    requires IsText(text)
    requires frame.Valid() && REMOTE_AT_COMMAND_HEAD - 2 <= frame.CmdDataLength()
    requires |text| == 2 ==> REMOTE_AT_COMMAND_HEAD <= frame.CmdDataLength()
    requires REMOTE_AT_COMMAND_HEAD - 2 + |text| < 0xFFFF
    modifies frame, frame.cmdData
    ensures frame.Valid()
    ensures |text| == 2 ==>
              frame.CmdDataLength() == old(frame.CmdDataLength())
              && Get(frame.Payload(), RemoteAtCommand, Command) == Some(MapDigits(text))
              && Tail(frame.Payload(), RemoteAtCommand) == Tail(old(frame.Payload()), RemoteAtCommand)
    ensures |text| != 2 ==>
              frame.Payload() == old(frame.Payload())[..REMOTE_AT_COMMAND_HEAD - 2] + MapDigits(text)
    ensures frame.Payload()[..REMOTE_AT_COMMAND_HEAD - 2] == old(frame.Payload())[..REMOTE_AT_COMMAND_HEAD - 2]
    ensures |text| == 2 || old(frame.CmdDataLength()) == REMOTE_AT_COMMAND_HEAD - 2 + |text| ==>
              frame.cmdData == old(frame.cmdData)
    ensures |text| != 2 && old(frame.CmdDataLength()) != REMOTE_AT_COMMAND_HEAD - 2 + |text| ==>
              fresh(frame.cmdData)
    ensures frame.checksum == if performChecksum then ChecksumOf(frame.cmdId, frame.Payload()) else old(frame.checksum)
    ensures frame.cmdId == old(frame.cmdId) && frame.ready == old(frame.ready) && frame.errorCode == old(frame.errorCode)
  {
    if |text| == 2 {
      SlotOfIndex(RemoteAtCommand, 4);
      SetField(frame, RemoteAtCommand, Command, MapDigits(text), performChecksum);
    } else {
      frame.SetTail(REMOTE_AT_COMMAND_HEAD - 2, MapDigits(text), performChecksum);
    }
  }
}
