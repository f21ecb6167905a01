/** The B1 image as a table of fields, big-endian and in order: what `Encode` emits for every record. */
module WireLayout {
  import opened Wrappers
  import opened Octets
  import opened Representation
  import opened Operations
  import opened Wire
  import opened B1Fields
  import opened B1Codec
  import opened B1Record

  // ---- Numbers ----

  /** A number in so many octets, the most significant first. */
  function Number(width: nat, n: nat): (r: Bytes)
    ensures |r| == width
  {
    if width == 0 then [] else Number(width - 1, n / 0x100) + [n % 0x100]
  }

  /** The number that octets spell, the most significant first. */
  function Value(s: Bytes): nat {
    if s == [] then 0 else Value(s[..|s| - 1]) * 0x100 + s[|s| - 1]
  }

  function Capacity(width: nat): nat {
    if width == 0 then 1 else 0x100 * Capacity(width - 1)
  }

  /** Every number is the value of its octets, as far as they reach. */
  lemma {:induction false} NumberHasValue(width: nat, n: nat)
    ensures n < Capacity(width) ==> Value(Number(width, n)) == n
  {
    if width > 0 {
      NumberHasValue(width - 1, n / 0x100);
      assert Number(width, n)[..width - 1] == Number(width - 1, n / 0x100);
    }
  }

  lemma NumberOf16(n: u16)
    ensures Number(2, n) == BE16(n)
  {
    assert Number(0, n / 0x100 / 0x100) == [];
    assert Number(1, n / 0x100) == [n / 0x100 % 0x100];
  }

  lemma {:induction false} NumberSplit(width: nat, n: nat)
    ensures Number(width + 2, n) == Number(width, n / 0x1_0000) + BE16(n % 0x1_0000)
  {
    assert n / 0x100 / 0x100 == n / 0x1_0000;
    assert n / 0x100 % 0x100 == n % 0x1_0000 / 0x100 && n % 0x100 == n % 0x1_0000 % 0x100;
    assert Number(width + 1, n / 0x100) == Number(width, n / 0x1_0000) + [n / 0x100 % 0x100];
  }

  lemma NumberOf32(n: u32)
    ensures Number(4, n) == BE32(n)
  {
    NumberSplit(2, n);
    NumberOf16(n / 0x1_0000);
  }

  lemma NumberOf64(n: u64)
    ensures Number(8, n) == BE64(n)
  {
    var high, low := n / 0x1_0000_0000, n % 0x1_0000_0000;
    NumberSplit(6, n);
    NumberSplit(4, n / 0x1_0000);
    assert n / 0x1_0000 / 0x1_0000 == high;
    assert n / 0x1_0000 % 0x1_0000 == low / 0x1_0000 && n % 0x1_0000 == low % 0x1_0000;
    NumberOf32(high);
    assert BE32(low) == BE16(low / 0x1_0000) + BE16(low % 0x1_0000);
  }

  // ---- Parts ----

  function Each<T>(layout: T -> Bytes, xs: seq<T>): Bytes {
    if xs == [] then [] else layout(xs[0]) + Each(layout, xs[1..])
  }

  /** A count in one octet, and so many parts. */
  function List<T>(layout: T -> Bytes, xs: seq<T>): Bytes {
    Number(1, |xs|) + Each(layout, xs)
  }

  function Flag(b: bool): Bytes {
    if b then [1] else [0]
  }

  /** A flag, and what it announces. */
  function OptionalNumber(n: Option<u64>): Bytes {
    match n case None => [0] case Some(v) => [1] + Number(8, v)
  }

  function OptionalArray(a: Option<Octets32>): Bytes {
    match a case None => [0] case Some(v) => [1] + v
  }

  function OptionalText(text: Option<Text>): Bytes {
    match text case None => [0] case Some(v) => [1] + Counted16(v)
  }

  function Counted8(s: Bytes): Bytes {
    Number(1, |s|) + s
  }

  function Counted16(s: Bytes): Bytes {
    Number(2, |s|) + s
  }

  function GenerationLayout(g: Generation): Bytes {
    Number(2, g.major) + Number(2, g.minor)
  }

  function PreferenceLayout(p: CodecPreference): Bytes {
    Number(4, p.codecId) + Number(4, p.revision) + p.schema
  }

  function DeclarationLayout(e: ExtensionDeclaration): Bytes {
    Number(4, e.id) + Flag(e.critical)
  }

  function SelectionLayout(s: Selection): Bytes {
    s.representationId + Number(8, s.durablePrefixOffset) + Number(8, s.maxDesiredPayloadOctets)
  }

  function CursorLayout(c: Cursor): Bytes {
    match c
    case DeltaCursor(sequence) => [0] + Number(8, sequence)
    case FullCursor(key) => [1] + key.objectId + Number(4, key.partId) + key.representationId
  }

  function LengthsLayout(d: Descriptor): Bytes {
    Number(8, d.encodedLength) + OptionalNumber(d.decodedLength) + d.contentDigest + OptionalNumber(d.usefulnessExpiry)
  }

  function DescriptorLayout(d: Descriptor): Bytes {
    d.representationId + d.schemaFingerprint + Number(4, d.codecId) + Number(4, d.codecRevision) + Counted16(d.codecParameters) + LengthsLayout(d)
  }

  function EntryLayout(e: Entry): Bytes {
    Number(8, e.sequence) + e.objectId + Number(4, e.partId) + DescriptorLayout(e.descriptor)
  }

  function ExtensionLayout(e: Extension): Bytes {
    Number(4, e.id) + Flag(e.critical) + Counted16(e.value)
  }

  function ModeNumber(m: OfferMode): byte {
    if m == Delta then 0 else 1
  }

  function LimitsLayout(c: Capabilities): Bytes {
    Number(4, c.maxOperationOctets) + Number(8, c.maxDataPayloadOctets) + [c.receiptLevels]
    + [match c.securityClass case Public => 0 case AuthenticatedPublic => 1 case Confidential => 2]
    + List(DeclarationLayout, c.extensions)
  }

  function SchemaLayout(schema: Octets32): Bytes {
    schema
  }

  function CodeNumber(code: FailureCode): byte {
    match code
    case UnsupportedVersion => 0 case UnsupportedSchema => 1 case UnsupportedCodec => 2 case UnsupportedCriticalExtension => 3
    case MalformedOperation => 4 case LimitExceeded => 5 case UnknownObject => 6 case MetadataConflict => 7 case RangeInvalid => 8
    case IntegrityFailure => 9 case StorageFailure => 10 case PolicyRejected => 11 case CheckpointUnknown => 12
  }

  function OperationLayout(op: Operation): Bytes {
    match op
    case CapabilitiesOp(c) =>
      List(GenerationLayout, c.generations) + List(SchemaLayout, c.schemas) + List(PreferenceLayout, c.codecs) + LimitsLayout(c)
    case SummaryOp(s) => s.collectionId + Number(8, s.generation) + Number(8, s.itemCount) + s.digest
    case OfferOp(o) =>
      o.collectionId + [ModeNumber(o.mode)] + Number(8, o.baseGeneration) + Number(8, o.targetGeneration)
      + CursorLayout(o.firstCursor) + CursorLayout(o.lastCursor)
      + List(EntryLayout, o.descriptors) + Flag(o.more)
    case RequestOp(InventoryPage(p)) =>
      [0] + p.collectionId + Number(8, p.targetGeneration) + [ModeNumber(p.mode)] + CursorLayout(p.committedCursor) + [p.pageEntryLimit]
    case RequestOp(RepresentationData(q)) =>
      [1] + q.budgetId + Number(8, q.maxTotal) + Number(8, q.maxSenderToReceiver) + Number(8, q.maxReceiverToSender)
      + List(SelectionLayout, q.selections)
    case DataOp(d) => d.representationId + Number(8, d.offset) + Number(4, |d.payload|) + d.payload
    case ReceiptOp(r) =>
      r.subjectId
      + [match r.status case RepresentationCommitted => 0 case ApplicationAccepted => 1 case ApplicationDelivered => 2 case ApplicationRejected => 3]
      + OptionalArray(r.verifiedDigest) + r.idempotencyId + OptionalText(r.reason)
    case FailureOp(f) =>
      [CodeNumber(f.code)] + Counted8(f.scope) + Flag(f.retryable) + OptionalText(f.detail)
  }

  /** The seven kinds by number. */
  function KindNumber(op: Operation): byte {
    match op
    case CapabilitiesOp(_) => 1 case SummaryOp(_) => 2 case OfferOp(_) => 3 case RequestOp(_) => 4
    case DataOp(_) => 5 case ReceiptOp(_) => 6 case FailureOp(_) => 7
  }

  function ContentLayout(r: Record): Bytes {
    OperationLayout(r.operation) + List(ExtensionLayout, r.extensions)
  }

  /** "B1", the kind, the length of the content, the content. */
  function RecordLayout(r: Record): Bytes {
    [0x42, 0x31] + [KindNumber(r.operation)] + Number(4, |ContentLayout(r)|) + ContentLayout(r)
  }

  // ---- The emitted octets are the table's ----

  ghost predicate LaidOut<T(!new)>(put: (T, Bytes) -> Bytes, layout: T -> Bytes) {
    forall x, tail :: put(x, tail) == layout(x) + tail
  }

  lemma {:induction false} ManyLaidOut<T(!new)>(put: (T, Bytes) -> Bytes, layout: T -> Bytes, xs: seq<T>, tail: Bytes)
    requires LaidOut(put, layout)
    ensures PutMany(put, xs, tail) == Each(layout, xs) + tail
  {
    if xs != [] {
      ManyLaidOut(put, layout, xs[1..], tail);
      assert put(xs[0], PutMany(put, xs[1..], tail)) == layout(xs[0]) + PutMany(put, xs[1..], tail);
    }
  }

  lemma CountOf(n: nat)
    requires n < 0x100
    ensures Number(1, n) == [n]
  {
    assert Number(0, n / 0x100) == [];
  }

  lemma Numbers()
    ensures forall n: u16 :: Number(2, n) == BE16(n)
    ensures forall n: u32 :: Number(4, n) == BE32(n)
    ensures forall n: u64 :: Number(8, n) == BE64(n)
  {
    hide Number, BE16, BE32, BE64;
    forall n: u16
      ensures Number(2, n) == BE16(n)
    {
      NumberOf16(n);
    }
    forall n: u32
      ensures Number(4, n) == BE32(n)
    {
      NumberOf32(n);
    }
    forall n: u64
      ensures Number(8, n) == BE64(n)
    {
      NumberOf64(n);
    }
  }

  lemma CapabilityPartsLaidOut()
    ensures LaidOut(PutGeneration, GenerationLayout) && LaidOut(PutSchema, SchemaLayout) && LaidOut(PutPreference, PreferenceLayout)
    ensures LaidOut(PutDeclaration, DeclarationLayout)
  {
    hide Number, BE16, BE32, BE64;
    Numbers();
  }

  lemma CursorLaidOut(c: Cursor, tail: Bytes)
    ensures PutCursor(c, tail) == CursorLayout(c) + tail
  {
    hide Number, BE16, BE32, BE64;
    Numbers();
  }

  lemma SelectionsLaidOut()
    ensures LaidOut(PutSelection, SelectionLayout)
  {
    hide Number, BE16, BE32, BE64;
    Numbers();
  }

  lemma LengthsLaidOut(d: Descriptor, tail: Bytes)
    ensures PutLengths(d, tail) == LengthsLayout(d) + tail
  {
    hide Number, BE16, BE32, BE64;
    Numbers();
  }

  lemma DescriptorLaidOut(d: Descriptor, tail: Bytes)
    requires |d.codecParameters| < 0x1_0000
    ensures PutDescriptor(d, tail) == DescriptorLayout(d) + tail
  {
    hide Number, BE16, BE32, BE64, LengthsLayout, PutLengths;
    Numbers();
    LengthsLaidOut(d, tail);
  }

  lemma EntryLaidOut(e: Entry, tail: Bytes)
    requires |e.descriptor.codecParameters| < 0x1_0000
    ensures PutEntry(e, tail) == EntryLayout(e) + tail
  {
    hide Number, BE16, BE32, BE64, DescriptorLayout, PutDescriptor;
    Numbers();
    DescriptorLaidOut(e.descriptor, tail);
  }

  lemma {:induction false} EntriesLaidOut(entries: seq<Entry>, tail: Bytes)
    requires Writable(entries)
    ensures PutEntries(entries, tail) == Each(EntryLayout, entries) + tail
  {
    hide EntryLayout, PutEntry;
    if entries != [] {
      EntriesLaidOut(entries[1..], tail);
      EntryLaidOut(entries[0], PutEntries(entries[1..], tail));
    }
  }

  lemma ListLaidOut<T(!new)>(put: (T, Bytes) -> Bytes, layout: T -> Bytes, xs: seq<T>, tail: Bytes)
    requires LaidOut(put, layout) && |xs| < 0x100
    ensures [|xs|] + PutMany(put, xs, tail) == List(layout, xs) + tail
  {
    hide Number, Each, PutMany, LaidOut;
    CountOf(|xs|);
    ManyLaidOut(put, layout, xs, tail);
  }

  lemma LimitsLaidOut(c: Capabilities, tail: Bytes)
    requires |c.extensions| < 0x100
    ensures PutLimits(c, tail) == LimitsLayout(c) + tail
  {
    hide Number, BE16, BE32, BE64, PutMany, List, LaidOut, DeclarationLayout, PutDeclaration;
    Numbers();
    CapabilityPartsLaidOut();
    ListLaidOut(PutDeclaration, DeclarationLayout, c.extensions, tail);
  }

  lemma CapabilitiesLaidOut(c: Capabilities, tail: Bytes)
    requires Counted(c)
    ensures PutCapabilities(c, tail) == OperationLayout(CapabilitiesOp(c)) + tail
  {
    hide PutMany, List, PutLimits, LimitsLayout, LaidOut;
    CapabilityPartsLaidOut();
    LimitsLaidOut(c, tail);
    var t3 := PutLimits(c, tail);
    ListLaidOut(PutPreference, PreferenceLayout, c.codecs, t3);
    var t2 := [|c.codecs| as byte] + PutMany(PutPreference, c.codecs, t3);
    ListLaidOut(PutSchema, SchemaLayout, c.schemas, t2);
    var t1 := [|c.schemas| as byte] + PutMany(PutSchema, c.schemas, t2);
    ListLaidOut(PutGeneration, GenerationLayout, c.generations, t1);
  }

  lemma OfferLaidOut(o: Offer, tail: Bytes)
    requires |o.descriptors| < 0x100 && Writable(o.descriptors)
    ensures PutOffer(o, tail) == OperationLayout(OfferOp(o)) + tail
  {
    hide Number, BE16, BE32, BE64, PutEntries, Each, EntryLayout, CursorLayout, PutCursor;
    Numbers();
    CountOf(|o.descriptors|);
    var t1 := PutBool(o.more, tail);
    EntriesLaidOut(o.descriptors, t1);
    var t2 := [|o.descriptors| as byte] + PutEntries(o.descriptors, t1);
    CursorLaidOut(o.lastCursor, t2);
    CursorLaidOut(o.firstCursor, PutCursor(o.lastCursor, t2));
  }

  lemma RequestLaidOut(q: Request, tail: Bytes)
    requires Fits(RequestOp(q))
    ensures PutOperation(RequestOp(q), tail) == OperationLayout(RequestOp(q)) + tail
  {
    hide Number, BE16, BE32, BE64, PutMany, Each, SelectionLayout, PutSelection, CursorLayout, PutCursor, LaidOut;
    Numbers();
    match q
    case InventoryPage(p) => CursorLaidOut(p.committedCursor, [p.pageEntryLimit] + tail);
    case RepresentationData(d) =>
      CountOf(|d.selections|);
      SelectionsLaidOut();
      ManyLaidOut(PutSelection, SelectionLayout, d.selections, tail);
  }

  lemma TextLaidOut(text: Option<Text>, tail: Bytes)
    requires text.Some? ==> |text.value| < 0x1_0000
    ensures PutText(text, tail) == OptionalText(text) + tail
  {
    hide Number, BE16, ValidUtf8;
    if text.Some? {
      var t := text.value;
      NumberOf16(|t|);
      assert PutText(text, tail) == [1] + (BE16(|t|) + (t + tail));
      assert OptionalText(text) == [1] + (Number(2, |t|) + t);
    }
  }

  lemma ReceiptLaidOut(r: Receipt, tail: Bytes)
    requires Fits(ReceiptOp(r))
    ensures PutReceipt(r, tail) == OperationLayout(ReceiptOp(r)) + tail
  {
    hide Number, BE16, BE32, BE64, PutText, OptionalText;
    TextLaidOut(r.reason, tail);
  }

  lemma CodesAgree(code: FailureCode)
    ensures CodeTag(code) == CodeNumber(code)
  {
  }

  lemma FailureLaidOut(f: Failure, tail: Bytes)
    requires Fits(FailureOp(f))
    ensures PutFailure(f, tail) == OperationLayout(FailureOp(f)) + tail
  {
    hide Number, PutText, OptionalText, CodeTag, CodeNumber, ValidUtf8;
    CodesAgree(f.code);
    CountOf(|f.scope|);
    TextLaidOut(f.detail, tail);
  }

  lemma SummaryOrDataLaidOut(op: Operation, tail: Bytes)
    requires Fits(op) && (op.SummaryOp? || op.DataOp?)
    ensures PutOperation(op, tail) == OperationLayout(op) + tail
  {
    hide Number, BE16, BE32, BE64;
    Numbers();
  }

  lemma OperationLaidOut(op: Operation, tail: Bytes)
    requires Fits(op)
    ensures PutOperation(op, tail) == OperationLayout(op) + tail
  {
    hide OperationLayout, PutCapabilities, PutOffer, PutReceipt, PutFailure;
    match op
    case CapabilitiesOp(c) => CapabilitiesLaidOut(c, tail);
    case OfferOp(o) => OfferLaidOut(o, tail);
    case RequestOp(q) => RequestLaidOut(q, tail);
    case ReceiptOp(r) => ReceiptLaidOut(r, tail);
    case FailureOp(f) => FailureLaidOut(f, tail);
    case _ => SummaryOrDataLaidOut(op, tail);
  }

  lemma {:induction false} ExtensionsLaidOut(s: seq<Extension>)
    requires WritableExtensions(s)
    ensures PutExtensions(s, []) == Each(ExtensionLayout, s)
  {
    hide Number, BE16, BE32, BE64;
    if s != [] {
      ExtensionsLaidOut(s[1..]);
      Numbers();
    }
  }

  /** Every emitted record is laid out as the table says. */
  lemma RecordIsLaidOut(r: Record)
    requires Encode(r).Ok?
    ensures Encode(r).value == RecordLayout(r)
  {
    hide PutOperation, OperationLayout, Number, BE32, PutExtensions, Each;
    ValidFits(r.operation);
    ContentSize(r);
    ExtensionsLaidOut(r.extensions);
    OperationLaidOut(r.operation, [|r.extensions| as byte] + PutExtensions(r.extensions, []));
    CountOf(|r.extensions|);
    assert Content(r) == ContentLayout(r);
    Numbers();
  }
}
