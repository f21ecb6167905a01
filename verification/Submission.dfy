/** Submitting one record: sizing, admission, carriage, deterministic mutation and strict decoding at the far end. */
module Submission {
  import opened Wrappers
  import opened Octets
  import opened Representation
  import opened Operations
  import opened B1Codec
  import opened B1Record
  import opened B1Maxima
  import opened Carriers
  import opened Accounts
  import Negotiation
  import ProtocolSpec
  import Readers
  import RepresentationSpec
  import Writers

  datatype ContactError =
    | NoContacts
    | UnauthorizedSource
    | IdentityConflict
    | NegotiationFailed(code: FailureCode)
    | ContactLimit(contacts: nat)
    | CarrierFailed(carrier: CarrierError)
    | InvalidCarrier
    | SyncFailed(sync: Operations.Error)
    | InvalidTransition
    | ProtocolFailed(protocol: ProtocolSpec.StoreError)
    | RepresentationFailed(representation: RepresentationSpec.StoreError)

  datatype Mutation = Exact | TruncateRecord | CorruptPayload

  datatype Delivery = NotAdmitted | Lost | Malformed | Received(record: Record)

  /** Where the payload of a DATA record begins: envelope, identity, offset and length come before it. */
  const DATA_PAYLOAD_OFFSET := 7 + 32 + 8 + 4

  function Flip(b: byte): byte {
    255 - b
  }

  /** The carried octets as the plan lets them arrive. */
  function Mutated(bytes: Bytes, mutation: Mutation): Bytes {
    match mutation
    case Exact => bytes
    case TruncateRecord => if bytes == [] then [] else bytes[..|bytes| - 1]
    case CorruptPayload =>
      if |bytes| > DATA_PAYLOAD_OFFSET then bytes[DATA_PAYLOAD_OFFSET := Flip(bytes[DATA_PAYLOAD_OFFSET])] else bytes
  }

  /** A DATA record whose first payload octet is inverted. */
  function Corrupted(r: Record): Record
    requires r.operation.DataOp? && r.operation.data.payload != []
  {
    var d := r.operation.data;
    Record(DataOp(d.(payload := d.payload[0 := Flip(d.payload[0])])), r.extensions)
  }

  // ---- What a mutation does to an image ----

  lemma AcceptedIsFramed(bytes: Bytes, supported: set<u32>)
    requires Decode(bytes, supported).Ok?
    ensures |bytes| >= ENVELOPE_OCTETS && FromBE32(bytes[3..7]) == |bytes| - ENVELOPE_OCTETS
  {
  }

  lemma FramedIsNotCut(bytes: Bytes, supported: set<u32>)
    requires |bytes| >= ENVELOPE_OCTETS && FromBE32(bytes[3..7]) == |bytes| - ENVELOPE_OCTETS
    ensures Decode(bytes[..|bytes| - 1], supported).Err?
  {
    var cut := bytes[..|bytes| - 1];
    if |cut| >= ENVELOPE_OCTETS {
      assert cut[3..7] == bytes[3..7];
    }
  }

  /** A record without its last octet never decodes: the envelope length gives it away. */
  lemma TruncationIsCaught(r: Record, supported: set<u32>)
    requires Encode(r).Ok?
    ensures Decode(Mutated(Encode(r).value, TruncateRecord), supported).Err?
  {
    var known := set e | e in r.extensions :: e.id;
    DecodeUndoesEncode(r, known);
    AcceptedIsFramed(Encode(r).value, known);
    FramedIsNotCut(Encode(r).value, supported);
  }

  function DataHead(r: Record): (head: Bytes)
    requires r.operation.DataOp? && ExactSize(r).Ok?
    ensures |head| == DATA_PAYLOAD_OFFSET
  {
    var d := r.operation.data;
    Image(Tag(r.operation), ExactSize(r).value - ENVELOPE_OCTETS, d.representationId + BE64(d.offset) + BE32(|d.payload|))
  }

  function DataTail(r: Record): Bytes
    requires ExactSize(r).Ok?
  {
    [|r.extensions|] + PutExtensions(r.extensions, [])
  }

  lemma ImageSplit(tag: byte, length: u32, a: Bytes, b: Bytes, c: Bytes)
    ensures Image(tag, length, a + b + c) == Image(tag, length, a) + b + c
  {
  }

  lemma DataContent(r: Record)
    requires r.operation.DataOp? && ExactSize(r).Ok?
    ensures ENVELOPE_OCTETS <= ExactSize(r).value <= MAX_RECORD_OCTETS
    ensures r.operation.data.payload != [] && Fits(r.operation) && WritableExtensions(r.extensions) && |r.extensions| < 0x100
    ensures var d := r.operation.data;
            Content(r) == (d.representationId + BE64(d.offset) + BE32(|d.payload|)) + d.payload + DataTail(r)
  {
  }

  /** The image of a DATA record around its payload. */
  lemma DataImageSplit(r: Record)
    requires r.operation.DataOp? && Encode(r).Ok?
    ensures ExactSize(r).Ok? && r.operation.data.payload != []
    ensures Encode(r).value == DataHead(r) + r.operation.data.payload + DataTail(r)
  {
    hide ExactSize, Content, DataTail, Image, WritableExtensions, Fits;
    var d := r.operation.data;
    DataContent(r);
    var fields := d.representationId + BE64(d.offset) + BE32(|d.payload|);
    ImageSplit(Tag(r.operation), ExactSize(r).value - ENVELOPE_OCTETS, fields, d.payload, DataTail(r));
  }

  /** Replacing one octet of the middle part of a concatenation. */
  lemma MiddleOctet(head: Bytes, p: Bytes, tail: Bytes, b: byte)
    requires p != []
    ensures (head + p + tail)[|head| := b] == head + p[0 := b] + tail
  {
  }

  /** Inverting the octet at the payload offset is encoding the record with its first payload octet inverted. */
  lemma CorruptionIsARecord(r: Record)
    requires r.operation.DataOp? && Encode(r).Ok?
    ensures r.operation.data.payload != [] && Encode(Corrupted(r)).Ok?
    ensures Mutated(Encode(r).value, CorruptPayload) == Encode(Corrupted(r)).value
  {
    DataImageSplit(r);
    EncodedSizeIsExact(Corrupted(r));
    DataImageSplit(Corrupted(r));
    MiddleOctet(DataHead(r), r.operation.data.payload, DataTail(r), Flip(r.operation.data.payload[0]));
  }

  /** What the strict decoder makes of a carried record under each mutation. */
  function Arriving(r: Record, mutation: Mutation): Delivery
    requires r.operation.DataOp? ==> r.operation.data.payload != []
  {
    match mutation
    case Exact => Received(r)
    case TruncateRecord => Delivery.Malformed
    case CorruptPayload => if r.operation.DataOp? then Received(Corrupted(r)) else Delivery.Malformed
  }

  lemma PlainIsDecoded(r: Record)
    requires Encode(r).Ok? && r.extensions == []
    ensures Decode(Encode(r).value, {}) == Ok(r)
  {
    hide Encode, Decode;
    DecodeUndoesEncode(r, {});
  }

  lemma PayloadIsPresent(r: Record)
    requires Encode(r).Ok?
    ensures r.operation.DataOp? ==> r.operation.data.payload != []
  {
    hide Encode, Decode;
    if r.operation.DataOp? {
      CorruptionIsARecord(r);
    }
  }

  lemma ArrivingIsDecoded(r: Record, mutation: Mutation)
    requires Encode(r).Ok? && r.extensions == []
    requires mutation == CorruptPayload ==> r.operation.DataOp?
    ensures r.operation.DataOp? ==> r.operation.data.payload != []
    ensures var decoded := Decode(Mutated(Encode(r).value, mutation), {});
            Arriving(r, mutation) == if decoded.Ok? then Received(decoded.value) else Delivery.Malformed
  {
    hide Encode, Decode;
    PayloadIsPresent(r);
    match mutation
    case Exact => PlainIsDecoded(r);
    case TruncateRecord => TruncationIsCaught(r, {});
    case CorruptPayload =>
      CorruptionIsARecord(r);
      PlainIsDecoded(Corrupted(r));
  }

  // ---- Submitting ----

  /** The largest record carrier and profile both allow, or without a profile the carrier and the protocol. */
  function RecordLimit(config: CarrierConfig, profile: Option<Negotiation.Profile>): (limit: nat)
    ensures limit <= config.maxRecordBytes && (profile.Some? ==> limit <= profile.value.maxOperationOctets) && (profile.None? ==> limit <= 0x10_0000)
    ensures limit == config.maxRecordBytes || limit == if profile.Some? then profile.value.maxOperationOctets else 0x10_0000
  {
    Min(config.maxRecordBytes, if profile.Some? then profile.value.maxOperationOctets else MAX_RECORD_OCTETS)
  }

  function Payload(op: Operation): nat {
    if op.DataOp? then |op.data.payload| else 0
  }

  function ArrivedPayload(d: Delivery): nat {
    if d.Received? then Payload(d.record.operation) else 0
  }

  /** Everything an account says about stored octets, which carrying a record does not touch. */
  ghost predicate SameStored(a: Accounting, b: Accounting) {
    && b.payloadDuplicate == a.payloadDuplicate
    && b.usefulCommitted == a.usefulCommitted
    && b.integrityFailures == a.integrityFailures
    && b.firstBody == a.firstBody
  }

  /** The log gained one record of this direction and size. */
  ghost predicate GainedRecord(before: seq<CarrierEvent>, after: seq<CarrierEvent>, direction: Direction, octets: nat) {
    |after| == |before| + 1 && after[..|before|] == before && after[|before|].direction == direction && after[|before|].recordBytes == octets
  }

  method Submit(carrier: DeterministicCarrier, profile: Option<Negotiation.Profile>, record: Record, direction: Direction,
                mutation: Mutation, account: Accounting) returns (r: Result<Delivery, ContactError>, a: Accounting)
    requires carrier.Valid() && Booked(account, carrier.events)
    requires record.extensions == [] && (mutation == CorruptPayload ==> record.operation.DataOp?)
    modifies carrier
    ensures carrier.Valid()
    ensures ExactSize(record).Err? ==> r == Err(SyncFailed(ExactSize(record).error))
    ensures ExactSize(record).Ok? ==>
              var size := ExactSize(record).value;
              if size > RecordLimit(carrier.config, profile) || size > old(carrier.Remaining()) then
                r == Ok(NotAdmitted)
              else if old(carrier.disconnected) then
                r == Err(CarrierFailed(Disconnected))
              else
                r == Ok(if carrier.disconnected then Lost else Arriving(record, mutation))
    ensures r == Ok(NotAdmitted) ==> a == account && carrier.events == old(carrier.events) && carrier.spent == old(carrier.spent)
                                     && carrier.disconnected == old(carrier.disconnected)
    ensures r.Ok? && r.value != NotAdmitted ==>
              && carrier.spent == old(carrier.spent) + ExactSize(record).value
              && GainedRecord(old(carrier.events), carrier.events, direction, ExactSize(record).value)
              && a.operations == Credit(account.operations, KindOf(record.operation), ExactSize(record).value)
    ensures r.Ok? && r.value != NotAdmitted && carrier.config.disconnectAfterMs.None? ==> !carrier.disconnected
    ensures r.Ok? ==> Recorded(a, carrier.events) && SameStored(account, a)
    ensures r.Ok? && Travels(KindOf(record.operation), direction) ==> Booked(a, carrier.events)
    ensures r.Ok? ==>
              && a.payloadSubmitted == account.payloadSubmitted + (if r.value == NotAdmitted then 0 else Payload(record.operation))
              && a.payloadDelivered == account.payloadDelivered + ArrivedPayload(r.value)
              && a.decodeFailures == account.decodeFailures + if r.value == Delivery.Malformed then 1 else 0
  {
    a := account;
    var size := ExactSize(record);
    if size.Err? {
      return Err(SyncFailed(size.error)), a;
    }
    EncodedSizeIsExact(record);
    var expected := size.value;
    var written := Writers.EncodeRecord(record);
    var encoded := written.value;
    assert |encoded| == expected;
    if |encoded| > RecordLimit(carrier.config, profile) || |encoded| > carrier.Remaining() {
      return Ok(NotAdmitted), a;
    }
    r, a := Carry(carrier, record, encoded, direction, mutation, account);
  }

  /** Carries an admitted record and enters it into the books. */
  method Carry(carrier: DeterministicCarrier, record: Record, encoded: Bytes, direction: Direction, mutation: Mutation, account: Accounting)
    returns (r: Result<Delivery, ContactError>, a: Accounting)
    requires carrier.Valid() && Booked(account, carrier.events)
    requires Encode(record) == Ok(encoded) && record.extensions == [] && (mutation == CorruptPayload ==> record.operation.DataOp?)
    requires |encoded| <= carrier.config.maxRecordBytes && |encoded| <= carrier.Remaining() && Payload(record.operation) <= |encoded|
    modifies carrier
    ensures carrier.Valid()
    ensures if old(carrier.disconnected) then r == Err(CarrierFailed(Disconnected))
            else r == Ok(if carrier.disconnected then Lost else Arriving(record, mutation))
    ensures r.Ok? ==>
              && carrier.spent == old(carrier.spent) + |encoded|
              && GainedRecord(old(carrier.events), carrier.events, direction, |encoded|)
              && a.operations == Credit(account.operations, KindOf(record.operation), |encoded|)
              && a.decodeFailures == account.decodeFailures + (if r.value == Delivery.Malformed then 1 else 0)
              && (carrier.config.disconnectAfterMs.None? ==> !carrier.disconnected)
              && Recorded(a, carrier.events) && SameStored(account, a)
              && (Travels(KindOf(record.operation), direction) ==> Booked(a, carrier.events))
              && a.payloadSubmitted == account.payloadSubmitted + Payload(record.operation)
              && a.payloadDelivered == account.payloadDelivered + ArrivedPayload(r.value)
  {
    hide Booked, Recorded, Encode, DeterministicCarrier.Valid, Credit, Arriving, Arrival, ChargedOctets, InTime;
    a := account.(predicted := account.predicted + |encoded|, sizeChecks := account.sizeChecks + 1);
    ghost var events := carrier.events;
    var sent := carrier.Transmit(direction, |encoded|);
    if sent.Err? {
      return Err(CarrierFailed(sent.error)), a;
    }
    a := Charge(a, record.operation, direction, |encoded|, sent.value);
    var delivery := Lost;
    if sent.value.delivered {
      delivery, a := Receive(record, encoded, mutation, a);
    }
    BookedWithOneMore(account, a, events, carrier.events[|events|], KindOf(record.operation), Payload(record.operation));
    r := Ok(delivery);
  }

  method Charge(account: Accounting, op: Operation, direction: Direction, expected: nat, sent: Delivered) returns (a: Accounting)
    ensures a == account.(
      senderToReceiver := account.senderToReceiver + (if direction == SenderToReceiver then sent.octets else 0),
      carrierSenderToReceiver := account.carrierSenderToReceiver + (if direction == SenderToReceiver then sent.carrierOctets else 0),
      receiverToSender := account.receiverToSender + (if direction == ReceiverToSender then sent.octets else 0),
      carrierReceiverToSender := account.carrierReceiverToSender + (if direction == ReceiverToSender then sent.carrierOctets else 0),
      operations := Credit(account.operations, KindOf(op), sent.octets),
      quoteError := account.quoteError + sent.octets - expected,
      payloadSubmitted := account.payloadSubmitted + Payload(op))
  {
    a := account;
    match direction {
      case SenderToReceiver =>
        a := a.(senderToReceiver := a.senderToReceiver + sent.octets, carrierSenderToReceiver := a.carrierSenderToReceiver + sent.carrierOctets);
      case ReceiverToSender =>
        a := a.(receiverToSender := a.receiverToSender + sent.octets, carrierReceiverToSender := a.carrierReceiverToSender + sent.carrierOctets);
    }
    a := a.(operations := Credit(a.operations, KindOf(op), sent.octets));
    a := a.(quoteError := a.quoteError + (sent.octets - expected));
    if op.DataOp? {
      a := a.(payloadSubmitted := a.payloadSubmitted + |op.data.payload|);
    }
  }

  method Receive(record: Record, encoded: Bytes, mutation: Mutation, account: Accounting) returns (d: Delivery, a: Accounting)
    requires Encode(record) == Ok(encoded) && record.extensions == [] && (mutation == CorruptPayload ==> record.operation.DataOp?)
    ensures record.operation.DataOp? ==> record.operation.data.payload != []
    ensures d == Arriving(record, mutation)
    ensures a == account.(payloadDelivered := account.payloadDelivered + ArrivedPayload(d),
                          decodeFailures := account.decodeFailures + if d == Delivery.Malformed then 1 else 0)
    ensures ArrivedPayload(d) <= Payload(record.operation)
  {
    hide Encode, Decode;
    a := account;
    ArrivingIsDecoded(record, mutation);
    var decoded := Readers.DecodeRecord(Mutated(encoded, mutation), {});
    if decoded.Ok? {
      if decoded.value.operation.DataOp? {
        a := a.(payloadDelivered := a.payloadDelivered + |decoded.value.operation.data.payload|);
      }
      d := Received(decoded.value);
    } else {
      a := a.(decodeFailures := a.decodeFailures + 1);
      d := Delivery.Malformed;
    }
  }
}
