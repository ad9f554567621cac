/** The field-layout catalogue of the frame kinds: which field sits at which
    payload offset, how wide it is, and where each kind's variable tail
    (`getData`, `getParam`) begins. The source spreads this over one class
    per kind with offsets written `N - CMD_DATA_OFFSET`; here it is one table
    indexed by a tagged frame kind, with the same offsets written the same way.

    Getters are modelled as the bytes at the offset, and their value as a
    big-endian read of those bytes. Two layouts depend on the payload's
    content: the I/O sample (`RxDataSample`), whose digital-samples word is
    present only when the digital mask is non-zero, and the node
    identification (`RxNodeId`), whose NUL-terminated NI string shifts every
    later field. */
module Layout {
  import opened Bytes
  import opened Protocol
  import opened Wrappers

  // ---------------------------------------------------------------------
  // Frame kinds
  // ---------------------------------------------------------------------

  datatype FrameKind =
    | Tx64Request | Tx16Request | AtCommand | AtQueueCommand | TxRequest
    | ExplicitTxRequest | RemoteAtCommand
    | Rx64Response | Rx16Response | AtCommandResponse | TxStatusResponse
    | ModemStatus | TxStatus | RouteInformation | AggregateAddressing
    | RxResponse | ExplicitRxResponse | RxDataSample | RxNodeId
    | RemoteAtCommandResponse

  /** The kinds the library builds and sends. */
  predicate IsRequest(k: FrameKind)
  {
    k.Tx64Request? || k.Tx16Request? || k.AtCommand? || k.AtQueueCommand?
    || k.TxRequest? || k.ExplicitTxRequest? || k.RemoteAtCommand?
  }

  /** The `cmdId` byte of each kind. */
  function ApiId(k: FrameKind): (id: uint8)
  {
    match k
    case Tx64Request => TX_64_REQUEST
    case Tx16Request => TX_16_REQUEST
    case AtCommand => AT_COMMAND
    case AtQueueCommand => AT_QUEUE_COMMAND
    case TxRequest => TX_REQUEST
    case ExplicitTxRequest => EXPLICIT_TX_REQUEST
    case RemoteAtCommand => REMOTE_AT_COMMAND
    case Rx64Response => RX_64_RESPONSE
    case Rx16Response => RX_16_RESPONSE
    case AtCommandResponse => AT_COMMAND_RESPONSE
    case TxStatusResponse => TX_STATUS_RESPONSE
    case ModemStatus => MODEM_STATUS
    case TxStatus => TX_STATUS
    case RouteInformation => ROUTE_INFORMATION
    case AggregateAddressing => AGGREGATE_ADDRESSING
    case RxResponse => RX_RESPONSE
    case ExplicitRxResponse => EXPLICIT_RX_RESPONSE
    case RxDataSample => RX_DATA_SAMPLE
    case RxNodeId => RX_NODE_ID
    case RemoteAtCommandResponse => REMOTE_AT_COMMAND_RESPONSE
  }

  /** The kind a received `cmdId` announces, if the library has a layout for it. */
  function KindOf(id: uint8): (k: Option<FrameKind>)
    ensures k.Some? ==> ApiId(k.value) == id
  {
    if id == TX_64_REQUEST then Some(Tx64Request)
    else if id == TX_16_REQUEST then Some(Tx16Request)
    else if id == AT_COMMAND then Some(AtCommand)
    else if id == AT_QUEUE_COMMAND then Some(AtQueueCommand)
    else if id == TX_REQUEST then Some(TxRequest)
    else if id == EXPLICIT_TX_REQUEST then Some(ExplicitTxRequest)
    else if id == REMOTE_AT_COMMAND then Some(RemoteAtCommand)
    else if id == RX_64_RESPONSE then Some(Rx64Response)
    else if id == RX_16_RESPONSE then Some(Rx16Response)
    else if id == AT_COMMAND_RESPONSE then Some(AtCommandResponse)
    else if id == TX_STATUS_RESPONSE then Some(TxStatusResponse)
    else if id == MODEM_STATUS then Some(ModemStatus)
    else if id == TX_STATUS then Some(TxStatus)
    else if id == ROUTE_INFORMATION then Some(RouteInformation)
    else if id == AGGREGATE_ADDRESSING then Some(AggregateAddressing)
    else if id == RX_RESPONSE then Some(RxResponse)
    else if id == EXPLICIT_RX_RESPONSE then Some(ExplicitRxResponse)
    else if id == RX_DATA_SAMPLE then Some(RxDataSample)
    else if id == RX_NODE_ID then Some(RxNodeId)
    else if id == REMOTE_AT_COMMAND_RESPONSE then Some(RemoteAtCommandResponse)
    else None
  }

  /** The frame-type identifiers are distinct: every kind is recognised
      from its `cmdId`, and a kind is recognised only from its own. */
  lemma ApiIdsDistinct(k: FrameKind)
    ensures KindOf(ApiId(k)) == Some(k)
  {
  }

  /** The `*_HEAD` constant of each kind: the payload bytes before its tail. */
  function Head(k: FrameKind): (head: nat)
  {
    match k
    case Tx64Request => TX_64_REQUEST_HEAD
    case Tx16Request => TX_16_REQUEST_HEAD
    case AtCommand => AT_COMMAND_HEAD
    case AtQueueCommand => AT_QUEUE_COMMAND_HEAD
    case TxRequest => TX_REQUEST_HEAD
    case ExplicitTxRequest => EXPLICIT_TX_REQUEST_HEAD
    case RemoteAtCommand => REMOTE_AT_COMMAND_HEAD
    case Rx64Response => RX_64_RESPONSE_HEAD
    case Rx16Response => RX_16_RESPONSE_HEAD
    case AtCommandResponse => AT_COMMAND_RESPONSE_HEAD
    case TxStatusResponse => TX_STATUS_RESPONSE_HEAD
    case ModemStatus => MODEM_STATUS_HEAD
    case TxStatus => TX_STATUS_HEAD
    case RouteInformation => ROUTE_INFORMATION_HEAD
    case AggregateAddressing => AGGREGATE_ADDRESSING_HEAD
    case RxResponse => RX_RESPONSE_HEAD
    case ExplicitRxResponse => EXPLICIT_RX_RESPONSE_HEAD
    case RxDataSample => RX_DATA_SAMPLE_HEAD
    case RxNodeId => RX_NODE_ID_HEAD
    case RemoteAtCommandResponse => REMOTE_AT_COMMAND_RESPONSE_HEAD
  }

  // ---------------------------------------------------------------------
  // Fields and the layout table
  // ---------------------------------------------------------------------

  datatype Field =
    | FrameId | Address64 | Address16 | Options | Broadcast
    | SourceEndpoint | DestinationEndpoint | ClusterId | ProfileId | Command
    | Rssi | Status | RetryCount | DeliveryStatus | DiscoveryStatus
    | SourceEvent | RouteLength | Timestamp | AckTimeoutCount
    | DestinationAddress64 | SourceAddress64 | ResponderAddress64 | ReceiverAddress64
    | FormatId | NewAddress64 | OldAddress64
    | SampleCount | DigitalMask | AnalogMask
    | SourceAddress16 | NetworkAddress64
    | ParentAddress16 | DeviceType | DigiProfileId | DigiManufacturerId | DigiDd

  /** The width in bytes of each field. */
  function Width(f: Field): (w: nat)
  {
    match f
    case Address64 | DestinationAddress64 | SourceAddress64 | ResponderAddress64
       | ReceiverAddress64 | NewAddress64 | OldAddress64 | NetworkAddress64 => 8
    case Timestamp | DigiDd => 4
    case Address16 | ClusterId | ProfileId | Command | DigitalMask | SourceAddress16
       | ParentAddress16 | DigiProfileId | DigiManufacturerId => 2
    case _ => 1
  }

  datatype Slot = Slot(field: Field, offset: nat)
  {
    /** The first payload offset after the field. */
    function End(): nat
    {
      offset + Width(field)
    }
  }

  /** The fixed fields of each kind, in payload order, at the offsets the
      source's accessors use (for a request, the offsets its setters write). */
  function Slots(k: FrameKind): (slots: seq<Slot>)
  {
    match k
    case Tx64Request =>
      [Slot(FrameId, 0), Slot(Address64, 5 - CMD_DATA_OFFSET), Slot(Options, 13 - CMD_DATA_OFFSET)]
    case Tx16Request =>
      [Slot(FrameId, 0), Slot(Address16, 5 - CMD_DATA_OFFSET), Slot(Options, 7 - CMD_DATA_OFFSET)]
    case AtCommand | AtQueueCommand =>
      [Slot(FrameId, 0), Slot(Command, 1)]
    case TxRequest =>
      [Slot(FrameId, 0), Slot(Address64, 5 - CMD_DATA_OFFSET), Slot(Address16, 13 - CMD_DATA_OFFSET),
       Slot(Broadcast, 15 - CMD_DATA_OFFSET), Slot(Options, 16 - CMD_DATA_OFFSET)]
    case ExplicitTxRequest =>
      [Slot(FrameId, 0), Slot(Address64, 5 - CMD_DATA_OFFSET), Slot(Address16, 13 - CMD_DATA_OFFSET),
       Slot(SourceEndpoint, 15 - CMD_DATA_OFFSET), Slot(DestinationEndpoint, 16 - CMD_DATA_OFFSET),
       Slot(ClusterId, 17 - CMD_DATA_OFFSET), Slot(ProfileId, 19 - CMD_DATA_OFFSET),
       Slot(Broadcast, 21 - CMD_DATA_OFFSET), Slot(Options, 22 - CMD_DATA_OFFSET)]
    case RemoteAtCommand =>
      [Slot(FrameId, 0), Slot(Address64, 5 - CMD_DATA_OFFSET), Slot(Address16, 13 - CMD_DATA_OFFSET),
       Slot(Options, 15 - CMD_DATA_OFFSET), Slot(Command, 16 - CMD_DATA_OFFSET)]
    case Rx64Response =>
      [Slot(Address64, 4 - CMD_DATA_OFFSET), Slot(Rssi, 12 - CMD_DATA_OFFSET), Slot(Options, 13 - CMD_DATA_OFFSET)]
    case Rx16Response =>
      [Slot(Address16, 4 - CMD_DATA_OFFSET), Slot(Rssi, 6 - CMD_DATA_OFFSET), Slot(Options, 7 - CMD_DATA_OFFSET)]
    case AtCommandResponse =>
      [Slot(FrameId, 0), Slot(Command, 5 - CMD_DATA_OFFSET), Slot(Status, 7 - CMD_DATA_OFFSET)]
    case TxStatusResponse =>
      [Slot(FrameId, 0), Slot(Status, 5 - CMD_DATA_OFFSET)]
    case ModemStatus =>
      [Slot(Status, 4 - CMD_DATA_OFFSET)]
    case TxStatus =>
      [Slot(FrameId, 0), Slot(Address16, 5 - CMD_DATA_OFFSET), Slot(RetryCount, 7 - CMD_DATA_OFFSET),
       Slot(DeliveryStatus, 8 - CMD_DATA_OFFSET), Slot(DiscoveryStatus, 9 - CMD_DATA_OFFSET)]
    case RouteInformation =>
      [Slot(SourceEvent, 4 - CMD_DATA_OFFSET), Slot(RouteLength, 5 - CMD_DATA_OFFSET),
       Slot(Timestamp, 6 - CMD_DATA_OFFSET), Slot(AckTimeoutCount, 10 - CMD_DATA_OFFSET),
       Slot(DestinationAddress64, 13 - CMD_DATA_OFFSET), Slot(SourceAddress64, 21 - CMD_DATA_OFFSET),
       Slot(ResponderAddress64, 29 - CMD_DATA_OFFSET), Slot(ReceiverAddress64, 37 - CMD_DATA_OFFSET)]
    case AggregateAddressing =>
      [Slot(FormatId, 4 - CMD_DATA_OFFSET), Slot(NewAddress64, 5 - CMD_DATA_OFFSET),
       Slot(OldAddress64, 13 - CMD_DATA_OFFSET)]
    case RxResponse =>
      [Slot(Address64, 4 - CMD_DATA_OFFSET), Slot(Address16, 12 - CMD_DATA_OFFSET),
       Slot(Options, 14 - CMD_DATA_OFFSET)]
    case ExplicitRxResponse =>
      [Slot(Address64, 4 - CMD_DATA_OFFSET), Slot(Address16, 12 - CMD_DATA_OFFSET),
       Slot(SourceEndpoint, 14 - CMD_DATA_OFFSET), Slot(DestinationEndpoint, 15 - CMD_DATA_OFFSET),
       Slot(ClusterId, 16 - CMD_DATA_OFFSET), Slot(ProfileId, 18 - CMD_DATA_OFFSET),
       Slot(Options, 20 - CMD_DATA_OFFSET)]
    case RxDataSample =>
      [Slot(Address64, 4 - CMD_DATA_OFFSET), Slot(Address16, 12 - CMD_DATA_OFFSET),
       Slot(Options, 14 - CMD_DATA_OFFSET), Slot(SampleCount, 15 - CMD_DATA_OFFSET),
       Slot(DigitalMask, 16 - CMD_DATA_OFFSET), Slot(AnalogMask, 18 - CMD_DATA_OFFSET)]
    case RxNodeId =>
      [Slot(Address64, 4 - CMD_DATA_OFFSET), Slot(Address16, 12 - CMD_DATA_OFFSET),
       Slot(Options, 14 - CMD_DATA_OFFSET), Slot(SourceAddress16, 15 - CMD_DATA_OFFSET),
       Slot(NetworkAddress64, 17 - CMD_DATA_OFFSET)]
    case RemoteAtCommandResponse =>
      [Slot(FrameId, 0), Slot(Address64, 5 - CMD_DATA_OFFSET), Slot(Address16, 13 - CMD_DATA_OFFSET),
       Slot(Command, 15 - CMD_DATA_OFFSET), Slot(Status, 17 - CMD_DATA_OFFSET)]
  }

  /** From index `i` on, every field ends by the head and by the start of
      the next one, and is not listed again further on. */
  predicate DisjointFrom(slots: seq<Slot>, head: nat, i: nat)
    decreases |slots| - i
  {
    i >= |slots|
    || (slots[i].End() <= head
        && (i + 1 < |slots| ==> slots[i].End() <= slots[i + 1].offset)
        && AbsentFrom(slots, slots[i].field, i + 1)
        && DisjointFrom(slots, head, i + 1))
  }

  /** Field `f` is not listed at index `j` or later. */
  predicate AbsentFrom(slots: seq<Slot>, f: Field, j: nat)
    decreases |slots| - j
  {
    j >= |slots| || (slots[j].field != f && AbsentFrom(slots, f, j + 1))
  }

  /** Fields follow one another without overlapping, no field is listed
      twice, and all of them end at or before the kind's head. */
  predicate Disjoint(slots: seq<Slot>, head: nat)
  {
    DisjointFrom(slots, head, 0)
  }

  /** From index `i` on, each field starts where the previous one ends and
      the last one ends at the head. */
  predicate PackedFrom(slots: seq<Slot>, head: nat, i: nat)
    decreases |slots| - i
  {
    i < |slots|
    && (if i + 1 == |slots| then slots[i].End() == head
        else slots[i].End() == slots[i + 1].offset && PackedFrom(slots, head, i + 1))
  }

  /** The fields fill the head exactly, from offset 0 on. */
  predicate Packed(slots: seq<Slot>, head: nat)
  {
    |slots| > 0 && slots[0].offset == 0 && PackedFrom(slots, head, 0)
  }

  lemma {:induction false} AbsentFromMeans(slots: seq<Slot>, f: Field, j: nat, m: nat)
    requires AbsentFrom(slots, f, j) && j <= m < |slots|
    ensures slots[m].field != f
    decreases m - j
  {
    if j < m {
      AbsentFromMeans(slots, f, j + 1, m);
    }
  }

  /** In a disjoint layout an earlier field ends before a later one begins,
      the two are different fields, and every field ends within the head. */
  lemma {:induction false} DisjointMeans(slots: seq<Slot>, head: nat, a: nat, b: nat)
    requires Disjoint(slots, head) && a < |slots| && b < |slots|
    ensures slots[a].End() <= head
    ensures a < b ==> slots[a].End() <= slots[b].offset && slots[a].field != slots[b].field
  {
    DisjointFromMeans(slots, head, 0, a, b);
  }

  lemma {:induction false} DisjointFromMeans(slots: seq<Slot>, head: nat, i: nat, a: nat, b: nat)
    requires DisjointFrom(slots, head, i) && i <= a < |slots| && b < |slots|
    ensures slots[a].End() <= head
    ensures a < b ==> slots[a].End() <= slots[b].offset && slots[a].field != slots[b].field
    decreases |slots| - i
  {
    if i < a {
      DisjointFromMeans(slots, head, i + 1, a, b);
    } else if a < b {
      AbsentFromMeans(slots, slots[a].field, a + 1, b);
      if a + 1 < b {
        DisjointFromMeans(slots, head, a + 1, a + 1, b);
      }
    }
  }

  // The table checked entry by entry, one kind at a time.
  lemma LayoutOfTx64Request() ensures Disjoint(Slots(Tx64Request), Head(Tx64Request)) && Packed(Slots(Tx64Request), Head(Tx64Request)) {}
  lemma LayoutOfTx16Request() ensures Disjoint(Slots(Tx16Request), Head(Tx16Request)) && Packed(Slots(Tx16Request), Head(Tx16Request)) {}
  lemma LayoutOfAtCommand() ensures Disjoint(Slots(AtCommand), Head(AtCommand)) && Packed(Slots(AtCommand), Head(AtCommand)) {}
  lemma LayoutOfAtQueueCommand() ensures Disjoint(Slots(AtQueueCommand), Head(AtQueueCommand)) && Packed(Slots(AtQueueCommand), Head(AtQueueCommand)) {}
  lemma LayoutOfTxRequest() ensures Disjoint(Slots(TxRequest), Head(TxRequest)) && Packed(Slots(TxRequest), Head(TxRequest)) {}
  lemma ExplicitTxRequestFrom5() ensures DisjointFrom(Slots(ExplicitTxRequest), Head(ExplicitTxRequest), 5) {}
  lemma ExplicitTxRequestPacked() ensures Packed(Slots(ExplicitTxRequest), Head(ExplicitTxRequest)) {}
  lemma LayoutOfExplicitTxRequest() ensures Disjoint(Slots(ExplicitTxRequest), Head(ExplicitTxRequest)) && Packed(Slots(ExplicitTxRequest), Head(ExplicitTxRequest)) {
    ExplicitTxRequestFrom5();
    ExplicitTxRequestPacked();
  }
  lemma LayoutOfRemoteAtCommand() ensures Disjoint(Slots(RemoteAtCommand), Head(RemoteAtCommand)) && Packed(Slots(RemoteAtCommand), Head(RemoteAtCommand)) {}
  lemma LayoutOfRx64Response() ensures Disjoint(Slots(Rx64Response), Head(Rx64Response)) {}
  lemma LayoutOfRx16Response() ensures Disjoint(Slots(Rx16Response), Head(Rx16Response)) {}
  lemma LayoutOfAtCommandResponse() ensures Disjoint(Slots(AtCommandResponse), Head(AtCommandResponse)) {}
  lemma LayoutOfTxStatusResponse() ensures Disjoint(Slots(TxStatusResponse), Head(TxStatusResponse)) {}
  lemma LayoutOfModemStatus() ensures Disjoint(Slots(ModemStatus), Head(ModemStatus)) {}
  lemma LayoutOfTxStatus() ensures Disjoint(Slots(TxStatus), Head(TxStatus)) {}
  lemma RouteInformationFrom4() ensures DisjointFrom(Slots(RouteInformation), Head(RouteInformation), 4) {}
  lemma RouteInformationFrom2() ensures DisjointFrom(Slots(RouteInformation), Head(RouteInformation), 2) {
    RouteInformationFrom4();
  }
  lemma LayoutOfRouteInformation() ensures Disjoint(Slots(RouteInformation), Head(RouteInformation)) {
    RouteInformationFrom2();
  }
  lemma LayoutOfAggregateAddressing() ensures Disjoint(Slots(AggregateAddressing), Head(AggregateAddressing)) {}
  lemma LayoutOfRxResponse() ensures Disjoint(Slots(RxResponse), Head(RxResponse)) {}
  lemma LayoutOfExplicitRxResponse() ensures Disjoint(Slots(ExplicitRxResponse), Head(ExplicitRxResponse)) {}
  lemma LayoutOfRxDataSample() ensures Disjoint(Slots(RxDataSample), Head(RxDataSample)) {}
  lemma LayoutOfRxNodeId() ensures Disjoint(Slots(RxNodeId), Head(RxNodeId)) {}
  lemma LayoutOfRemoteAtCommandResponse() ensures Disjoint(Slots(RemoteAtCommandResponse), Head(RemoteAtCommandResponse)) {}

  /** Every request's fields are disjoint and fill its head. */
  lemma RequestLayout(k: FrameKind)
    requires IsRequest(k)
    ensures Disjoint(Slots(k), Head(k)) && Packed(Slots(k), Head(k))
  {
    if k == Tx64Request { LayoutOfTx64Request(); }
    else if k == Tx16Request { LayoutOfTx16Request(); }
    else if k == AtCommand { LayoutOfAtCommand(); }
    else if k == AtQueueCommand { LayoutOfAtQueueCommand(); }
    else if k == TxRequest { LayoutOfTxRequest(); }
    else if k == ExplicitTxRequest { LayoutOfExplicitTxRequest(); }
    else { LayoutOfRemoteAtCommand(); }
  }

  /** Every response's fields are disjoint and lie in its head. */
  lemma ResponseLayout(k: FrameKind)
    requires !IsRequest(k)
    ensures Disjoint(Slots(k), Head(k))
  {
    if k == Rx64Response { LayoutOfRx64Response(); }
    else if k == Rx16Response { LayoutOfRx16Response(); }
    else if k == AtCommandResponse { LayoutOfAtCommandResponse(); }
    else if k == TxStatusResponse { LayoutOfTxStatusResponse(); }
    else if k == ModemStatus { LayoutOfModemStatus(); }
    else if k == TxStatus { LayoutOfTxStatus(); }
    else if k == RouteInformation { LayoutOfRouteInformation(); }
    else if k == AggregateAddressing { LayoutOfAggregateAddressing(); }
    else if k == RxResponse { LayoutOfRxResponse(); }
    else if k == ExplicitRxResponse { LayoutOfExplicitRxResponse(); }
    else if k == RxDataSample { LayoutOfRxDataSample(); }
    else if k == RxNodeId { LayoutOfRxNodeId(); }
    else { LayoutOfRemoteAtCommandResponse(); }
  }

  /** Every kind's fields are disjoint and lie in its head; a request's
      fields fill its head, so its `*_HEAD` constant is where its tail begins. */
  lemma LayoutWellFormed(k: FrameKind)
    ensures Disjoint(Slots(k), Head(k))
    ensures IsRequest(k) ==> Packed(Slots(k), Head(k))
  {
    if IsRequest(k) {
      RequestLayout(k);
    } else {
      ResponseLayout(k);
    }
  }

  /** Where in the table a field of the kind sits. */
  function IndexOf(slots: seq<Slot>, f: Field): (r: Option<nat>)
    ensures r.Some? ==> r.value < |slots| && slots[r.value].field == f
    ensures r.None? ==> forall i :: 0 <= i < |slots| ==> slots[i].field != f
  {
    if slots == [] then None
    else if slots[0].field == f then Some(0)
    else match IndexOf(slots[1..], f)
      case None => None
      case Some(i) => Some(i + 1)
  }

  /** The entry of field `f` in a layout, if the layout lists that field. */
  function Find(slots: seq<Slot>, f: Field): (r: Option<Slot>)
    ensures r.Some? ==> r.value.field == f
    ensures r.None? ==> forall i :: 0 <= i < |slots| ==> slots[i].field != f
  {
    match IndexOf(slots, f)
    case None => None
    case Some(i) => Some(slots[i])
  }

  /** In a disjoint layout, asking for the field of the `i`-th entry finds
      that entry: no field is listed twice. */
  lemma {:induction false} FindIndex(slots: seq<Slot>, head: nat, i: nat)
    requires Disjoint(slots, head) && i < |slots|
    ensures Find(slots, slots[i].field) == Some(slots[i])
  {
    var j := IndexOf(slots, slots[i].field).value;
    if j < i {
      DisjointMeans(slots, head, j, i);
    } else if i < j {
      DisjointMeans(slots, head, i, j);
    }
  }

  /** In a disjoint layout, every listed field ends within the head. */
  lemma {:induction false} FoundInHead(slots: seq<Slot>, head: nat, f: Field)
    requires Disjoint(slots, head)
    ensures Find(slots, f).Some? ==> Find(slots, f).value.End() <= head
  {
    if Find(slots, f).Some? {
      var i := IndexOf(slots, f).value;
      DisjointMeans(slots, head, i, i);
    }
  }

  /** The slot of field `f` in kind `k`, if the kind has that field. */
  function SlotOf(k: FrameKind, f: Field): (r: Option<Slot>)
    ensures r.Some? ==> r.value.field == f && r.value.End() <= Head(k)
    ensures r.None? ==> forall i :: 0 <= i < |Slots(k)| ==> Slots(k)[i].field != f
  {
    LayoutWellFormed(k);
    FoundInHead(Slots(k), Head(k), f);
    Find(Slots(k), f)
  }

  /** Every entry of a kind's table is what its field's getter reads. */
  lemma SlotOfIndex(k: FrameKind, i: nat)
    requires i < |Slots(k)|
    ensures SlotOf(k, Slots(k)[i].field) == Some(Slots(k)[i])
  {
    LayoutWellFormed(k);
    FindIndex(Slots(k), Head(k), i);
  }

  /** A getter: the bytes of field `f` in a payload of kind `k` (None when
      the kind has no such accessor). The payload must hold the kind's head. */
  function Get(payload: seq<uint8>, k: FrameKind, f: Field): (r: Option<seq<uint8>>)
    requires Head(k) <= |payload|
    ensures r.Some? <==> SlotOf(k, f).Some?
    ensures r.Some? ==> |r.value| == Width(f)
  {
    match SlotOf(k, f)
    case None => None
    case Some(s) => Some(payload[s.offset..s.End()])
  }

  /** The numeric value of a field, read big-endian. */
  function GetValue(payload: seq<uint8>, k: FrameKind, f: Field): (r: Option<nat>)
    requires Head(k) <= |payload|
    ensures r.Some? ==> r.value < Pow256(Width(f))
  {
    match Get(payload, k, f)
    case None => None
    case Some(bytes) => Some(FromBigEndian(bytes))
  }

  /** `getData` / `getParam`: the tail after the kind's head. Its length is
      `getDataLength` / `getParamLength`. */
  function Tail(payload: seq<uint8>, k: FrameKind): (r: seq<uint8>)
    requires Head(k) <= |payload|
    ensures |r| == |payload| - Head(k)
  {
    payload[Head(k)..]
  }

  /** Two payloads that agree on their first `h` bytes agree on every
      slice inside them. */
  lemma SliceWithinPrefix(p: seq<uint8>, q: seq<uint8>, h: nat, lo: nat, hi: nat)
    requires lo <= hi <= h <= |p| && h <= |q| && p[..h] == q[..h]
    ensures p[lo..hi] == q[lo..hi]
  {
    assert p[lo..hi] == p[..h][lo..hi];
    assert q[lo..hi] == q[..h][lo..hi];
  }

  /** The getters read only the head: two payloads with the same head
      answer every getter alike, whatever their tails. */
  lemma SameHeadSameFields(p: seq<uint8>, q: seq<uint8>, k: FrameKind)
    requires Head(k) <= |p| && Head(k) <= |q| && p[..Head(k)] == q[..Head(k)]
    ensures forall f :: Get(p, k, f) == Get(q, k, f)
  {
    forall f
      ensures Get(p, k, f) == Get(q, k, f)
    {
      var o := SlotOf(k, f);
      if o.Some? {
        SliceWithinPrefix(p, q, Head(k), o.value.offset, o.value.End());
      }
    }
  }

  /** The payload after a setter has written `bytes` over the bytes of
      `slot`: those bytes change and no others. */
  function WriteSlot(payload: seq<uint8>, slot: Slot, bytes: seq<uint8>): (r: seq<uint8>)
    requires slot.End() <= |payload| && |bytes| == Width(slot.field)
    ensures |r| == |payload| && r[slot.offset..slot.End()] == bytes
    ensures forall m :: 0 <= m < |payload| && !(slot.offset <= m < slot.End()) ==> r[m] == payload[m]
  {
    payload[..slot.offset] + bytes + payload[slot.End()..]
  }

  /** In a disjoint layout, writing the entry of field `f` leaves the entry
      of every other field, and everything after the head, as it was. */
  lemma {:induction false} WriteKeeps(payload: seq<uint8>, slots: seq<Slot>, head: nat, f: Field, g: Field, bytes: seq<uint8>)
    requires Disjoint(slots, head) && head <= |payload| && Find(slots, f).Some? && |bytes| == Width(f)
    ensures Find(slots, f).value.End() <= head
    ensures var w := WriteSlot(payload, Find(slots, f).value, bytes);
            w[head..] == payload[head..]
            && (g != f && Find(slots, g).Some? ==>
                  var t := Find(slots, g).value;
                  t.End() <= head && w[t.offset..t.End()] == payload[t.offset..t.End()])
  {
    var i := IndexOf(slots, f).value;
    var s := slots[i];
    DisjointMeans(slots, head, i, i);
    WriteSlotKeepsTail(payload, s, bytes, head);
    if g != f && Find(slots, g).Some? {
      var j := IndexOf(slots, g).value;
      var t := slots[j];
      DisjointMeans(slots, head, i, j);
      DisjointMeans(slots, head, j, i);
      var w := WriteSlot(payload, s, bytes);
      assert forall m :: t.offset <= m < t.End() ==> w[m] == payload[m];
      assert w[t.offset..t.End()] == payload[t.offset..t.End()];
    }
  }

  /** In a disjoint layout, writing entry `i` leaves entry `j` as it was. */
  lemma {:induction false} WriteSlotKeeps(payload: seq<uint8>, slots: seq<Slot>, head: nat, i: nat, j: nat, bytes: seq<uint8>)
    requires Disjoint(slots, head) && head <= |payload| && i < |slots| && j < |slots| && i != j
    requires |bytes| == Width(slots[i].field)
    ensures slots[i].End() <= head && slots[j].End() <= head
    ensures var t := slots[j];
            WriteSlot(payload, slots[i], bytes)[t.offset..t.End()] == payload[t.offset..t.End()]
  {
    var s, t := slots[i], slots[j];
    DisjointMeans(slots, head, i, j);
    DisjointMeans(slots, head, j, i);
    var w := WriteSlot(payload, s, bytes);
    assert forall m :: t.offset <= m < t.End() ==> w[m] == payload[m];
    assert w[t.offset..t.End()] == payload[t.offset..t.End()];
  }

  lemma WriteSlotKeepsTail(payload: seq<uint8>, slot: Slot, bytes: seq<uint8>, head: nat)
    requires slot.End() <= head <= |payload| && |bytes| == Width(slot.field)
    ensures WriteSlot(payload, slot, bytes)[head..] == payload[head..]
  {
    var w := WriteSlot(payload, slot, bytes);
    assert forall m :: head <= m < |payload| ==> w[m] == payload[m];
  }

  /** A setter followed by the getter: writing the bytes of one field gives
      them back, and leaves every other field and the tail unchanged. */
  lemma {:induction false} GetAfterWrite(payload: seq<uint8>, k: FrameKind, f: Field, g: Field, bytes: seq<uint8>)
    requires Head(k) <= |payload| && SlotOf(k, f).Some? && |bytes| == Width(f)
    ensures var written := WriteSlot(payload, SlotOf(k, f).value, bytes);
            Get(written, k, f) == Some(bytes)
            && (g != f ==> Get(written, k, g) == Get(payload, k, g))
            && Tail(written, k) == Tail(payload, k)
  {
    LayoutWellFormed(k);
    WriteKeeps(payload, Slots(k), Head(k), f, g, bytes);
  }

  // ---------------------------------------------------------------------
  // The transmit status quirk
  // ---------------------------------------------------------------------

  /** `TxStatus::getDeliveryStatus`: the 802.15.4 status frame (0x89) keeps
      its status at payload byte 1, the last byte of its 2-byte head; every
      other status frame keeps it at byte 4, the second-last byte of the
      `TxStatus` head. */
  function DeliveryStatusOf(cmdId: uint8, payload: seq<uint8>): (status: uint8)
    requires cmdId == TX_STATUS_RESPONSE ==> |payload| >= TX_STATUS_RESPONSE_HEAD
    requires cmdId != TX_STATUS_RESPONSE ==> |payload| > 8 - CMD_DATA_OFFSET
    ensures cmdId == TX_STATUS_RESPONSE ==> status == payload[TX_STATUS_RESPONSE_HEAD - 1]
    ensures cmdId != TX_STATUS_RESPONSE ==> status == payload[TX_STATUS_HEAD - 2]
  {
    if cmdId == TX_STATUS_RESPONSE then payload[5 - CMD_DATA_OFFSET]
    else payload[8 - CMD_DATA_OFFSET]
  }

  /** The delivery status read through `TxStatus` is the 0x89 frame's
      status field for a 0x89 frame, including one with only its 2-byte
      head, and the 0x8B frame's delivery-status field for a 0x8B frame. */
  lemma DeliveryStatusAgrees(payload: seq<uint8>)
    requires |payload| >= TX_STATUS_RESPONSE_HEAD
    ensures Get(payload, TxStatusResponse, Status) == Some([DeliveryStatusOf(TX_STATUS_RESPONSE, payload)])
    ensures |payload| >= TX_STATUS_HEAD ==>
              Get(payload, TxStatus, DeliveryStatus) == Some([DeliveryStatusOf(TX_STATUS, payload)])
  {
    StatusField(payload);
    if |payload| >= TX_STATUS_HEAD {
      DeliveryStatusField(payload);
    }
  }

  /** The 0x89 frame's status field is payload byte 1. */
  lemma StatusField(payload: seq<uint8>)
    requires |payload| >= TX_STATUS_RESPONSE_HEAD
    ensures Get(payload, TxStatusResponse, Status) == Some([payload[1]])
  {
    SlotOfIndex(TxStatusResponse, 1);
    assert Slots(TxStatusResponse)[1] == Slot(Status, 1);
    assert payload[1..2] == [payload[1]];
  }

  /** The 0x8B frame's delivery-status field is payload byte 4. */
  lemma DeliveryStatusField(payload: seq<uint8>)
    requires |payload| >= TX_STATUS_HEAD
    ensures Get(payload, TxStatus, DeliveryStatus) == Some([payload[4]])
  {
    SlotOfIndex(TxStatus, 3);
    assert Slots(TxStatus)[3] == Slot(DeliveryStatus, 4);
    assert payload[4..5] == [payload[4]];
  }

  // ---------------------------------------------------------------------
  // The 16-bit transmit request's address getter
  // ---------------------------------------------------------------------

  /** `Tx16Request::getAddress16` as written: it reads the two bytes at
      `8 - CMD_DATA_OFFSET`, where the data begins, and not the two bytes at
      `5 - CMD_DATA_OFFSET` that `setAddress16` and the constructor write.
      With fewer than two data bytes the read runs past the payload. */
  function Tx16Address16AsWritten(payload: seq<uint8>): (r: Read)
    requires |payload| >= TX_16_REQUEST_HEAD
    ensures r.Value? ==> r.value < 0x1_0000
  {
    if |payload| >= 10 - CMD_DATA_OFFSET then
      Value(FromBigEndian(payload[8 - CMD_DATA_OFFSET..10 - CMD_DATA_OFFSET]))
    else PastPayload
  }

  /** The getter as written does not see what `setAddress16` writes. */
  lemma Tx16Address16AsWrittenIgnoresSetter(payload: seq<uint8>, bytes: seq<uint8>)
    requires |payload| >= TX_16_REQUEST_HEAD && |bytes| == Width(Address16)
    ensures SlotOf(Tx16Request, Address16).Some?
    ensures Tx16Address16AsWritten(WriteSlot(payload, SlotOf(Tx16Request, Address16).value, bytes))
            == Tx16Address16AsWritten(payload)
  {
    SlotOfIndex(Tx16Request, 1);
    var w := WriteSlot(payload, Slot(Address16, 1), bytes);
    if |payload| >= 6 {
      assert w[4..6] == payload[4..6];
    }
  }

  /** A concrete request built with address 0x1234 and data `AA BB`: the
      getter at the setter's offset gives 0x1234 back, the getter as
      written gives 0xAABB. */
  lemma Tx16Address16Example()
    ensures GetValue([1, 0x12, 0x34, 0, 0xAA, 0xBB], Tx16Request, Address16) == Some(0x1234)
    ensures Tx16Address16AsWritten([1, 0x12, 0x34, 0, 0xAA, 0xBB]) == Value(0xAABB)
  {
    var p: seq<uint8> := [1, 0x12, 0x34, 0, 0xAA, 0xBB];
    SlotOfIndex(Tx16Request, 1);
    assert p[1..3] == [0x12, 0x34];
    assert [0x12, 0x34][..1] == [0x12] && [0x12][..0] == [];
    assert Get(p, Tx16Request, Address16) == Some([0x12, 0x34]);
    var data: seq<uint8> := [0xAA, 0xBB];
    assert p[4..6] == data;
    assert data[..1] == [0xAA] && data[..1][..0] == [];
    assert FromBigEndian(data) == 0xAABB;
  }

  // ---------------------------------------------------------------------
  // I/O samples: the digital word is present only with a digital mask
  // ---------------------------------------------------------------------

  /** C's `/` on `int`: the quotient truncated toward zero. */
  function TruncDiv(a: int, b: nat): (q: int)
    requires b > 0
  {
    if a >= 0 then a / b else -((-a) / b)
  }

  /** The value of a C `int` stored in a `uint16_t`: reduced modulo 2^16. */
  function ToUint16(a: int): (r: uint16)
  {
    a % 0x1_0000
  }

  /** `getDigitalMask`: the 16-bit mask after the sample count. It is zero
      exactly when both of its bytes are, so the `> 0` tests on it do not
      depend on the byte order it is read in. */
  function DigitalMaskOf(payload: seq<uint8>): (mask: uint16)
    requires |payload| >= 18 - CMD_DATA_OFFSET
    ensures mask == 0 <==> payload[16 - CMD_DATA_OFFSET] == 0 && payload[17 - CMD_DATA_OFFSET] == 0
  {
    var bytes := payload[16 - CMD_DATA_OFFSET..18 - CMD_DATA_OFFSET];
    assert bytes == [payload[16 - CMD_DATA_OFFSET], payload[17 - CMD_DATA_OFFSET]];
    FromBigEndianPair(payload[16 - CMD_DATA_OFFSET], payload[17 - CMD_DATA_OFFSET]);
    FromBigEndian(bytes)
  }

  /** The mask `getDigitalMask` reads is the table's `DigitalMask` field. */
  lemma DigitalMaskIsField(payload: seq<uint8>)
    requires |payload| >= RX_DATA_SAMPLE_HEAD
    ensures Get(payload, RxDataSample, DigitalMask) == Some(ToBigEndian(DigitalMaskOf(payload), Width(DigitalMask)))
  {
    var bytes := payload[16 - CMD_DATA_OFFSET..18 - CMD_DATA_OFFSET];
    SlotOfIndex(RxDataSample, 4);
    assert Slots(RxDataSample)[4] == Slot(DigitalMask, 16 - CMD_DATA_OFFSET);
    assert Get(payload, RxDataSample, DigitalMask) == Some(bytes);
    assert DigitalMaskOf(payload) == FromBigEndian(bytes);
    BigEndianImage(bytes);
  }

  /** `getDigitalSamples`: the digital word after the analog mask, or 0 when
      no digital line is sampled. */
  function DigitalSamples(payload: seq<uint8>): (samples: uint16)
    requires |payload| >= RX_DATA_SAMPLE_HEAD
    ensures DigitalMaskOf(payload) == 0 ==> samples == 0
    ensures DigitalMaskOf(payload) > 0 ==>
              ToBigEndian(samples, 2) == payload[RX_DATA_SAMPLE_HEAD - 2..RX_DATA_SAMPLE_HEAD]
  {
    if DigitalMaskOf(payload) > 0 then
      var bytes := payload[19 - CMD_DATA_OFFSET..21 - CMD_DATA_OFFSET];
      BigEndianImage(bytes);
      FromBigEndian(bytes)
    else 0
  }

  /** `getAnalogSamples`: where the analog samples begin, after the digital
      word when there is one and in its place otherwise. */
  function AnalogSamplesOffset(payload: seq<uint8>): (o: nat)
    requires |payload| >= 18 - CMD_DATA_OFFSET
    ensures DigitalMaskOf(payload) == 0 ==> o == Slots(RxDataSample)[5].End()
    ensures DigitalMaskOf(payload) > 0 ==> o == Slots(RxDataSample)[5].End() + Width(DigitalMask)
  {
    if DigitalMaskOf(payload) > 0 then 21 - CMD_DATA_OFFSET else 19 - CMD_DATA_OFFSET
  }

  /** The analog samples start right after the fixed fields when there is
      no digital word, and right after the digital word when there is one. */
  lemma SamplesAdjacent(payload: seq<uint8>)
    requires |payload| >= RX_DATA_SAMPLE_HEAD
    ensures var o := AnalogSamplesOffset(payload);
            Slots(RxDataSample)[5].End() <= o
            && (DigitalMaskOf(payload) == 0 ==> o == RX_DATA_SAMPLE_HEAD - 2 && DigitalSamples(payload) == 0)
            && (DigitalMaskOf(payload) > 0 ==>
                  o == RX_DATA_SAMPLE_HEAD && DigitalSamples(payload) == FromBigEndian(payload[o - 2..o]))
  {
  }

  /** `getAnalogSamplesLength`, in the source's arithmetic: an `int`
      difference halved with truncation and stored in a `uint16_t`. */
  function AnalogSamplesLength(payload: seq<uint8>): (n: uint16)
    requires |payload| >= 18 - CMD_DATA_OFFSET
    ensures n == ToUint16(TruncDiv(|payload| - AnalogSamplesOffset(payload), 2))
  {
    if DigitalMaskOf(payload) > 0 then ToUint16(TruncDiv(|payload| - RX_DATA_SAMPLE_HEAD, 2))
    else ToUint16(TruncDiv(2 + |payload| - RX_DATA_SAMPLE_HEAD, 2))
  }

  /** The payload (whose length is a 16-bit count) reaches the offset
      where the analog samples begin. */
  predicate AnalogSamplesPresent(payload: seq<uint8>)
  {
    18 - CMD_DATA_OFFSET <= |payload| <= 0xFFFF && |payload| >= AnalogSamplesOffset(payload)
  }

  /** Once the payload reaches the analog samples, their count is the number
      of whole 16-bit samples between their offset and the end of the
      payload: they fit, and at most one stray byte is left over. */
  lemma AnalogSamplesFill(payload: seq<uint8>)
    requires AnalogSamplesPresent(payload)
    ensures AnalogSamplesOffset(payload) + 2 * AnalogSamplesLength(payload) <= |payload|
    ensures |payload| <= AnalogSamplesOffset(payload) + 2 * AnalogSamplesLength(payload) + 1
  {
    var d := |payload| - AnalogSamplesOffset(payload);
    assert 0 <= d < 0x1_0000;
    assert TruncDiv(d, 2) == d / 2;
    assert AnalogSamplesLength(payload) == d / 2;
  }

  /** On a payload cut short before the analog samples, the count is
      `(-3) / 2 = -1` stored in 16 bits: 65535 samples. */
  lemma AnalogSamplesLengthWraps(payload: seq<uint8>)
    requires |payload| == 18 - CMD_DATA_OFFSET && DigitalMaskOf(payload) > 0
    ensures AnalogSamplesLength(payload) == 0xFFFF
  {
  }

  /** The analog samples, two bytes each. */
  function AnalogSamples(payload: seq<uint8>): (r: seq<uint8>)
    requires AnalogSamplesPresent(payload)
    ensures |r| == 2 * AnalogSamplesLength(payload)
  {
    AnalogSamplesFill(payload);
    payload[AnalogSamplesOffset(payload)..AnalogSamplesOffset(payload) + 2 * AnalogSamplesLength(payload)]
  }

  // ---------------------------------------------------------------------
  // Node identification: the NI string shifts the later fields
  // ---------------------------------------------------------------------

  /** Payload offset of the NI string (`getNi`). */
  const NI_OFFSET: nat := 25 - CMD_DATA_OFFSET

  /** The payload holds a NUL after the NI string's start, so the scan of
      `getNiLength` stops inside it. */
  predicate HasNi(payload: seq<uint8>)
  {
    |payload| > NI_OFFSET && 0 in payload[NI_OFFSET..]
  }

  /** The index of the first NUL byte. */
  function NulIndex(s: seq<uint8>): (n: nat)
    requires 0 in s
    ensures n < |s| && s[n] == 0
    ensures forall j :: 0 <= j < n ==> s[j] != 0
  {
    if s[0] == 0 then 0 else 1 + NulIndex(s[1..])
  }

  /** `getNiLength`: the length of the NI string, NUL excluded. */
  function NiLength(payload: seq<uint8>): (n: nat)
    requires HasNi(payload)
    ensures NI_OFFSET + n < |payload| && payload[NI_OFFSET + n] == 0
    ensures forall j :: NI_OFFSET <= j < NI_OFFSET + n ==> payload[j] != 0
  {
    var n := NulIndex(payload[NI_OFFSET..]);
    assert forall j :: NI_OFFSET <= j < NI_OFFSET + n ==> payload[j] == payload[NI_OFFSET..][j - NI_OFFSET];
    n
  }

  /** `getNi`: the NI string itself. */
  function Ni(payload: seq<uint8>): (r: seq<uint8>)
    requires HasNi(payload)
    ensures NI_OFFSET + |r| < |payload| && payload[NI_OFFSET + |r|] == 0 && 0 !in r
  {
    payload[NI_OFFSET..NI_OFFSET + NiLength(payload)]
  }

  /** `getNiLength` as the source writes it: a loop counting the bytes
      before the first NUL. */
  method CountNiLength(payload: seq<uint8>) returns (n: nat)
    requires HasNi(payload)
    ensures n == NiLength(payload)
  {
    n := 0;
    while payload[NI_OFFSET + n] != 0
      invariant NI_OFFSET + n <= NI_OFFSET + NiLength(payload)
      invariant forall j :: NI_OFFSET <= j < NI_OFFSET + n ==> payload[j] != 0
      decreases NiLength(payload) - n
    {
      n := n + 1;
    }
  }

  /** The first NUL after a NUL-free prefix is the one that ends it. */
  lemma {:induction false} NulIndexAfter(ni: seq<uint8>, rest: seq<uint8>)
    requires 0 !in ni
    ensures NulIndex(ni + [0] + rest) == |ni|
  {
    if ni != [] {
      assert (ni + [0] + rest)[1..] == ni[1..] + [0] + rest;
      NulIndexAfter(ni[1..], rest);
    }
  }

  /** The fields after the NI string, at the source's offsets
      `N + (getNiLength() - 1) - CMD_DATA_OFFSET` for an NI of `n` bytes:
      parent address, device type, source event, profile, manufacturer,
      then the optional device type identifier (DD) and RSSI. */
  function NodeIdSlots(n: nat): (slots: seq<Slot>)
  {
    [Slot(ParentAddress16, 27 + (n - 1) - CMD_DATA_OFFSET),
     Slot(DeviceType, 29 + (n - 1) - CMD_DATA_OFFSET),
     Slot(SourceEvent, 30 + (n - 1) - CMD_DATA_OFFSET),
     Slot(DigiProfileId, 31 + (n - 1) - CMD_DATA_OFFSET),
     Slot(DigiManufacturerId, 33 + (n - 1) - CMD_DATA_OFFSET),
     Slot(DigiDd, 35 + (n - 1) - CMD_DATA_OFFSET),
     Slot(Rssi, 39 + (n - 1) - CMD_DATA_OFFSET)]
  }

  /** The payload holds the NI string and the five fields that always
      follow it (the getters of those read without a guard). */
  predicate HasNodeIdFields(payload: seq<uint8>)
  {
    HasNi(payload) && |payload| >= NodeIdSlots(NiLength(payload))[4].End()
  }

  /** The getters of the five fields after the NI string: `getParentAddress16`,
      `getType`, `getSourceEvent`, `getDigiProfileId`, `getDigiManufacturerId`. */
  function NodeIdField(payload: seq<uint8>, i: nat): (r: seq<uint8>)
    requires HasNodeIdFields(payload) && i < 5
    ensures |r| == Width(NodeIdSlots(NiLength(payload))[i].field)
  {
    var s := NodeIdSlots(NiLength(payload))[i];
    payload[s.offset..s.End()]
  }

  /** Where field `i` of the fields after the NI string sits, counted from
      the byte after the NI string's NUL. */
  function AfterNul(i: nat): (d: nat)
    requires i < 7
  {
    NodeIdSlots(0)[i].offset - NodeIdSlots(0)[0].offset
  }

  /** The NI string written after the fixed fields and closed by a NUL is
      the NI string the getters find. */
  lemma NiFollowsFront(front: seq<uint8>, ni: seq<uint8>, rest: seq<uint8>)
    requires |front| == NI_OFFSET && 0 !in ni
    ensures var p := front + ni + [0] + rest;
            HasNi(p) && NiLength(p) == |ni| && Ni(p) == ni
  {
    var p := front + ni + [0] + rest;
    assert p[NI_OFFSET..] == ni + [0] + rest;
    NulIndexAfter(ni, rest);
    assert p[NI_OFFSET..NI_OFFSET + |ni|] == ni;
  }

  /** Whatever the NI string, the fields after it are read at the same
      places relative to its NUL: for a payload made of the fixed fields,
      an NI string, its NUL and then `rest`, the NI string is found again
      and every later field is read from `rest`. */
  lemma {:induction false} NodeIdFieldsFollowNi(front: seq<uint8>, ni: seq<uint8>, rest: seq<uint8>, i: nat)
    requires |front| == NI_OFFSET && 0 !in ni && i < 5 && |rest| >= NodeIdSlots(0)[4].End() - NodeIdSlots(0)[0].offset
    ensures var p := front + ni + [0] + rest;
            HasNodeIdFields(p) && Ni(p) == ni
            && NodeIdField(p, i) == rest[AfterNul(i)..AfterNul(i) + Width(NodeIdSlots(0)[i].field)]
  {
    var p := front + ni + [0] + rest;
    NiFollowsFront(front, ni, rest);
    var s := NodeIdSlots(|ni|)[i];
    assert s.offset == NI_OFFSET + |ni| + 1 + AfterNul(i);
    assert p[s.offset..s.End()] == rest[AfterNul(i)..AfterNul(i) + Width(s.field)];
  }

  /** A read that the source's guard lets past the end of the payload. */
  datatype Read = Value(value: nat) | PastPayload

  /** `getDigiDd` as written: it reads the 4-byte DD when the payload length
      is at least `RX_NODE_ID_HEAD + getNiLength() + 4`, and 0 otherwise. That
      bound does not count the NI string's NUL, so at exactly that length
      the read runs one byte past the payload. */
  function DdAsWritten(payload: seq<uint8>): (dd: Read)
    requires HasNi(payload)
    ensures dd.PastPayload? ==> |payload| + 1 == NodeIdSlots(NiLength(payload))[5].End()
    ensures |payload| < RX_NODE_ID_HEAD + NiLength(payload) + 4 ==> dd == Value(0)
  {
    var n := NiLength(payload);
    var s := NodeIdSlots(n)[5];
    if |payload| >= RX_NODE_ID_HEAD + n + 4 then
      if s.End() <= |payload| then Value(FromBigEndian(payload[s.offset..s.End()])) else PastPayload
    else Value(0)
  }

  /** `getRssi` as written: the same guard with 5, and the same overrun. */
  function RssiAsWritten(payload: seq<uint8>): (rssi: Read)
    requires HasNi(payload)
    ensures rssi.PastPayload? ==> |payload| + 1 == NodeIdSlots(NiLength(payload))[6].End()
    ensures |payload| < RX_NODE_ID_HEAD + NiLength(payload) + 5 ==> rssi == Value(0)
  {
    var n := NiLength(payload);
    var s := NodeIdSlots(n)[6];
    if |payload| >= RX_NODE_ID_HEAD + n + 5 then
      if s.End() <= |payload| then Value(payload[s.offset]) else PastPayload
    else Value(0)
  }

  /** `getDigiDd` with the guard the layout calls for: the DD when the
      payload holds all four of its bytes, 0 otherwise. */
  function DdOf(payload: seq<uint8>): (r: nat)
    requires HasNi(payload)
    ensures var s := NodeIdSlots(NiLength(payload))[5];
            (s.End() <= |payload| ==> r == FromBigEndian(payload[s.offset..s.End()]))
            && (s.End() > |payload| ==> r == 0)
  {
    var s := NodeIdSlots(NiLength(payload))[5];
    if |payload| >= s.End() then FromBigEndian(payload[s.offset..s.End()]) else 0
  }

  /** `getRssi` with the guard the layout calls for. */
  function RssiOf(payload: seq<uint8>): (r: uint8)
    requires HasNi(payload)
    ensures var s := NodeIdSlots(NiLength(payload))[6];
            (s.End() <= |payload| ==> r == payload[s.offset])
            && (s.End() > |payload| ==> r == 0)
  {
    var s := NodeIdSlots(NiLength(payload))[6];
    if |payload| >= s.End() then payload[s.offset] else 0
  }

  /** The guards as written overrun the payload at exactly one length, one
      byte short of the field's end; at every other length they agree with
      the corrected getters. */
  lemma NodeIdGuardsOverrun(payload: seq<uint8>)
    requires HasNi(payload)
    ensures DdAsWritten(payload).PastPayload? <==> |payload| == RX_NODE_ID_HEAD + NiLength(payload) + 4
    ensures !DdAsWritten(payload).PastPayload? ==> DdAsWritten(payload) == Value(DdOf(payload))
    ensures RssiAsWritten(payload).PastPayload? <==> |payload| == RX_NODE_ID_HEAD + NiLength(payload) + 5
    ensures !RssiAsWritten(payload).PastPayload? ==> RssiAsWritten(payload) == Value(RssiOf(payload))
  {
  }

  /** A concrete node identification payload with an empty NI string and
      33 bytes: the DD guard admits it, and the DD read needs a 34th byte. */
  lemma DdOverrunExample()
    ensures HasNi(seq(33, _ => 0)) && DdAsWritten(seq(33, _ => 0)) == PastPayload
  {
    var p: seq<uint8> := seq(33, _ => 0);
    assert p[NI_OFFSET] == 0;
    assert p[NI_OFFSET..][0] == 0;
    assert NiLength(p) == 0;
  }

  /** The fields after the NI string start right after its NUL and follow
      one another without gaps; the manufacturer id ends at
      `RX_NODE_ID_HEAD + n + 1`, one byte after `RX_NODE_ID_HEAD + n`,
      because the head constant does not count the NUL. */
  lemma NodeIdLayout(n: nat)
    ensures NodeIdSlots(n)[0].offset == NI_OFFSET + n + 1
    ensures forall i :: 0 <= i < 6 ==> NodeIdSlots(n)[i].End() == NodeIdSlots(n)[i + 1].offset
    ensures NodeIdSlots(n)[4].End() == RX_NODE_ID_HEAD + n + 1
    ensures NodeIdSlots(n)[6].End() == RX_NODE_ID_HEAD + n + 6
  {
  }
}
