/** The seven operations of protocol generation 0.1, their bounds and their validation. */
module Operations {
  import opened Wrappers
  import opened Octets
  import opened Representation

  const MAX_CAPABILITY_PROTOCOLS := 8
  const MAX_CAPABILITY_SCHEMAS := 16
  const MAX_CAPABILITY_CODECS := 16
  const MAX_EXTENSIONS := 32
  const MAX_EXTENSION_VALUE_OCTETS := 1_024
  const MAX_OFFER_DESCRIPTORS := 128
  const MAX_REQUEST_SELECTIONS := 128
  const MAX_COLLECTION_ENTRIES := 1_000_000
  const MAX_FAILURE_DETAIL_OCTETS := 256
  const MAX_FAILURE_SCOPE_OCTETS := 64
  const MAX_RECORD_OCTETS := 1_048_576

  datatype Error =
    | Truncated
    | InvalidMagic
    | Malformed(what: string)
    | NonCanonical(what: string)
    | TrailingBytes
    | UnknownOperation(tag: byte)
    | UnsupportedCriticalExtension(id: u32)
    | LimitExceeded(what: string)
    | MetadataConflict
    | CursorInvalid
    | RecordTooLarge

  // ---- Text ----

  predicate Continuation(b: byte) {
    0x80 <= b <= 0xbf
  }

  /** Octets of the first well-formed UTF-8 sequence (table 3-7 of the Unicode Standard), or zero. */
  function Utf8Width(s: Bytes): (n: nat)
    ensures n <= 4 && n <= |s|
  {
    if |s| >= 1 && s[0] <= 0x7f then 1
    else if |s| >= 2 && 0xc2 <= s[0] <= 0xdf && Continuation(s[1]) then 2
    else if |s| >= 3 && Continuation(s[1]) && Continuation(s[2]) && 0xe0 <= s[0] <= 0xef
            && (s[0] == 0xe0 ==> s[1] >= 0xa0) && (s[0] == 0xed ==> s[1] <= 0x9f) then 3
    else if |s| >= 4 && Continuation(s[1]) && Continuation(s[2]) && Continuation(s[3]) && 0xf0 <= s[0] <= 0xf4
            && (s[0] == 0xf0 ==> s[1] >= 0x90) && (s[0] == 0xf4 ==> s[1] <= 0x8f) then 4
    else 0
  }

  predicate ValidUtf8(s: Bytes)
    decreases |s|
  {
    s == [] || (Utf8Width(s) > 0 && ValidUtf8(s[Utf8Width(s)..]))
  }

  /** Whether some scalar value is a control: U+0000-001F, U+007F-009F. */
  predicate HasControl(s: Bytes)
    decreases |s|
  {
    Utf8Width(s) > 0 &&
    (s[0] < 0x20 || s[0] == 0x7f || (s[0] == 0xc2 && s[1] < 0xa0) || HasControl(s[Utf8Width(s)..]))
  }

  /** A string, as its UTF-8 octets. */
  type Text = s: Bytes | ValidUtf8(s) witness []

  // ---- Operations ----

  datatype Generation = Generation(major: u16, minor: u16)

  datatype CodecPreference = CodecPreference(codecId: u32, revision: u32, schema: Octets32)

  datatype SecurityClass = Public | AuthenticatedPublic | Confidential

  datatype ExtensionDeclaration = ExtensionDeclaration(id: u32, critical: bool)

  datatype Extension = Extension(id: u32, critical: bool, value: Bytes)

  datatype Capabilities = Capabilities(
    generations: seq<Generation>,
    schemas: seq<Octets32>,
    codecs: seq<CodecPreference>,
    maxOperationOctets: u32,
    maxDataPayloadOctets: u64,
    receiptLevels: byte,
    securityClass: SecurityClass,
    extensions: seq<ExtensionDeclaration>)

  datatype Summary = Summary(collectionId: Octets32, generation: u64, itemCount: u64, digest: Octets32)

  datatype EntryKey = EntryKey(objectId: Octets32, partId: u32, representationId: Octets32)

  datatype Entry = Entry(sequence: u64, objectId: Octets32, partId: u32, descriptor: Descriptor) {
    function Key(): EntryKey {
      EntryKey(objectId, partId, descriptor.representationId)
    }

    predicate Valid() {
      sequence != 0 && descriptor.Valid()
    }
  }

  datatype OfferMode = Delta | Full

  datatype Cursor = DeltaCursor(sequence: u64) | FullCursor(key: EntryKey)

  datatype Offer = Offer(
    collectionId: Octets32,
    mode: OfferMode,
    baseGeneration: u64,
    targetGeneration: u64,
    firstCursor: Cursor,
    lastCursor: Cursor,
    descriptors: seq<Entry>,
    more: bool)

  datatype InventoryPageRequest = InventoryPageRequest(
    collectionId: Octets32,
    targetGeneration: u64,
    mode: OfferMode,
    committedCursor: Cursor,
    pageEntryLimit: byte)

  datatype Selection = Selection(representationId: Octets32, durablePrefixOffset: u64, maxDesiredPayloadOctets: u64)

  datatype DataRequest = DataRequest(
    budgetId: Octets16,
    maxTotal: u64,
    maxSenderToReceiver: u64,
    maxReceiverToSender: u64,
    selections: seq<Selection>)

  datatype Request = InventoryPage(page: InventoryPageRequest) | RepresentationData(data: DataRequest)

  datatype Data = Data(representationId: Octets32, offset: u64, payload: Bytes)

  datatype ReceiptStatus = RepresentationCommitted | ApplicationAccepted | ApplicationDelivered | ApplicationRejected

  datatype Receipt = Receipt(
    subjectId: Octets32,
    status: ReceiptStatus,
    verifiedDigest: Option<Octets32>,
    idempotencyId: Octets16,
    reason: Option<Text>)

  datatype FailureCode =
    | UnsupportedVersion | UnsupportedSchema | UnsupportedCodec | UnsupportedCriticalExtension | MalformedOperation | LimitExceeded
    | UnknownObject | MetadataConflict | RangeInvalid | IntegrityFailure | StorageFailure | PolicyRejected | CheckpointUnknown

  datatype Failure = Failure(code: FailureCode, scope: Bytes, retryable: bool, detail: Option<Text>)

  datatype Operation =
    | CapabilitiesOp(capabilities: Capabilities)
    | SummaryOp(summary: Summary)
    | OfferOp(offer: Offer)
    | RequestOp(request: Request)
    | DataOp(data: Data)
    | ReceiptOp(receipt: Receipt)
    | FailureOp(failure: Failure)

  datatype Record = Record(operation: Operation, extensions: seq<Extension>)

  // ---- Orders ----

  predicate KeyLess(a: EntryKey, b: EntryKey) {
    || LexLess(a.objectId, b.objectId)
    || (a.objectId == b.objectId
        && (a.partId < b.partId || (a.partId == b.partId && LexLess(a.representationId, b.representationId))))
  }

  lemma KeyTotal(a: EntryKey, b: EntryKey)
    ensures KeyLess(a, b) || a == b || KeyLess(b, a)
    ensures !(KeyLess(a, b) && KeyLess(b, a))
    ensures !KeyLess(a, a)
  {
    LexTotal(a.objectId, b.objectId);
    LexTotal(a.representationId, b.representationId);
    LexTotal(a.objectId, a.objectId);
    LexTotal(a.representationId, a.representationId);
  }

  lemma KeyTransitive(a: EntryKey, b: EntryKey, c: EntryKey)
    requires KeyLess(a, b) && KeyLess(b, c)
    ensures KeyLess(a, c)
  {
    if LexLess(a.objectId, b.objectId) && LexLess(b.objectId, c.objectId) {
      LexTransitive(a.objectId, b.objectId, c.objectId);
    }
    if LexLess(a.representationId, b.representationId) && LexLess(b.representationId, c.representationId) {
      LexTransitive(a.representationId, b.representationId, c.representationId);
    }
  }

  // ---- Validation ----

  predicate Distinct<T(==)>(s: seq<T>) {
    forall i, j | 0 <= i < j < |s| :: s[i] != s[j]
  }

  function UniqueBounded<T(==)>(s: seq<T>, maximum: nat, field: string): Outcome<Error> {
    if |s| > maximum || !Distinct(s) then Fail(Error.LimitExceeded(field)) else Pass
  }

  function NonEmptyUnique<T(==)>(s: seq<T>, maximum: nat, field: string): Outcome<Error> {
    if s == [] then Fail(Malformed(field)) else UniqueBounded(s, maximum, field)
  }

  predicate DistinctDeclarations(s: seq<ExtensionDeclaration>) {
    forall i, j | 0 <= i < j < |s| :: s[i].id != s[j].id
  }

  predicate DistinctExtensions(s: seq<Extension>) {
    forall i, j | 0 <= i < j < |s| :: s[i].id != s[j].id
  }

  predicate DistinctSelections(s: seq<Selection>) {
    forall i, j | 0 <= i < j < |s| :: s[i].representationId != s[j].representationId
  }

  function ValidateCapabilities(c: Capabilities): Outcome<Error> {
    var generations := NonEmptyUnique(c.generations, MAX_CAPABILITY_PROTOCOLS, "protocol_generations");
    var schemas := NonEmptyUnique(c.schemas, MAX_CAPABILITY_SCHEMAS, "schema_fingerprints");
    var codecs := NonEmptyUnique(c.codecs, MAX_CAPABILITY_CODECS, "codec_preferences");
    if generations.Fail? then generations
    else if schemas.Fail? then schemas
    else if codecs.Fail? then codecs
    else if |c.extensions| > MAX_EXTENSIONS || !DistinctDeclarations(c.extensions) then Fail(Error.LimitExceeded("extensions"))
    else if c.maxOperationOctets == 0 || c.maxOperationOctets > MAX_OPERATION_OCTETS then Fail(Error.LimitExceeded("max_operation_octets"))
    else if c.maxDataPayloadOctets == 0 || c.maxDataPayloadOctets > MAX_REPRESENTATION_OCTETS then
      Fail(Error.LimitExceeded("max_data_payload_octets"))
    else if exists p | p in c.codecs :: p.schema !in c.schemas then Fail(Malformed("codec schema preference"))
    else Pass
  }

  function ValidateEntry(e: Entry): Outcome<Error> {
    if e.sequence == 0 then Fail(Malformed("collection sequence"))
    else if !e.descriptor.Valid() then Fail(Error.LimitExceeded("representation descriptor"))
    else Pass
  }

  /** Sequence or key already used by an earlier entry, or a sequence beyond the target. */
  predicate EntryConflicts(entries: seq<Entry>, i: nat, target: nat)
    requires i < |entries|
  {
    || entries[i].sequence > target
    || (exists j | 0 <= j < i :: entries[j].sequence == entries[i].sequence)
    || (exists j | 0 <= j < i :: entries[j].Key() == entries[i].Key())
  }

  /** Entries from index `i` on, in order, stopping at the first that is invalid or conflicts. */
  function ValidateEntries(entries: seq<Entry>, i: nat, target: nat): Outcome<Error>
    requires i <= |entries|
    decreases |entries| - i
  {
    if i == |entries| then
      Pass
    else
      var valid := ValidateEntry(entries[i]);
      if valid.Fail? then valid
      else if EntryConflicts(entries, i, target) then Fail(Error.MetadataConflict)
      else ValidateEntries(entries, i + 1, target)
  }

  /** Position of an entry in the order of a reconciliation mode. */
  predicate Before(mode: OfferMode, a: Entry, b: Entry) {
    match mode
    case Delta => a.sequence < b.sequence
    case Full => KeyLess(a.Key(), b.Key())
  }

  function CursorAt(mode: OfferMode, e: Entry): Cursor {
    match mode
    case Delta => DeltaCursor(e.sequence)
    case Full => FullCursor(e.Key())
  }

  predicate Ascending(mode: OfferMode, s: seq<Entry>) {
    forall i | 0 < i < |s| :: Before(mode, s[i - 1], s[i])
  }

  function ValidateOffer(o: Offer): Outcome<Error> {
    if |o.descriptors| == 0 || |o.descriptors| > MAX_OFFER_DESCRIPTORS then
      Fail(Error.LimitExceeded("offer descriptors"))
    else if o.baseGeneration > o.targetGeneration then
      Fail(Malformed("offer generations"))
    else
      var entries := ValidateEntries(o.descriptors, 0, o.targetGeneration);
      if entries.Fail? then
        entries
      else if !Ascending(o.mode, o.descriptors)
           || o.firstCursor != CursorAt(o.mode, o.descriptors[0])
           || o.lastCursor != CursorAt(o.mode, o.descriptors[|o.descriptors| - 1]) then
        Fail(NonCanonical(if o.mode == Delta then "delta offer order" else "full offer order"))
      else
        Pass
  }

  predicate CursorMatchesMode(cursor: Cursor, mode: OfferMode) {
    cursor.DeltaCursor? <==> mode == Delta
  }

  function ValidateDataRequest(r: DataRequest): Outcome<Error> {
    if |r.selections| == 0
       || |r.selections| > MAX_REQUEST_SELECTIONS
       || r.maxTotal == 0
       || r.maxSenderToReceiver > r.maxTotal
       || r.maxReceiverToSender > r.maxTotal
       || exists s | s in r.selections ::
            || s.maxDesiredPayloadOctets == 0
            || s.maxDesiredPayloadOctets > MAX_REPRESENTATION_OCTETS
            || s.durablePrefixOffset > MAX_REPRESENTATION_OCTETS then
      Fail(Error.LimitExceeded("representation data request"))
    else if !DistinctSelections(r.selections) then
      Fail(Error.MetadataConflict)
    else
      Pass
  }

  function ValidateText(text: Option<Text>, maximum: nat, field: string): Outcome<Error> {
    if text.Some? && (|text.value| > maximum || HasControl(text.value)) then Fail(Error.LimitExceeded(field)) else Pass
  }

  function ValidateSummary(s: Summary): Outcome<Error> {
    if s.itemCount > MAX_COLLECTION_ENTRIES || s.generation < s.itemCount then Fail(Error.LimitExceeded("summary")) else Pass
  }

  function ValidateData(d: Data): Outcome<Error> {
    if d.payload == [] || |d.payload| > MAX_REPRESENTATION_OCTETS || d.offset + |d.payload| > MAX_REPRESENTATION_OCTETS then
      Fail(Error.LimitExceeded("data"))
    else
      Pass
  }

  function ValidatePageRequest(p: InventoryPageRequest): Outcome<Error> {
    if p.pageEntryLimit == 0 || p.pageEntryLimit > MAX_OFFER_DESCRIPTORS || !CursorMatchesMode(p.committedCursor, p.mode) then
      Fail(Malformed("inventory page request"))
    else
      Pass
  }

  function ValidateReceipt(r: Receipt): Outcome<Error> {
    var reason := ValidateText(r.reason, MAX_FAILURE_DETAIL_OCTETS, "receipt reason");
    if reason.Fail? then reason
    else if r.status == RepresentationCommitted && r.verifiedDigest.None? then Fail(Malformed("committed receipt digest"))
    else Pass
  }

  function ValidateFailure(f: Failure): Outcome<Error> {
    if |f.scope| > MAX_FAILURE_SCOPE_OCTETS then Fail(Error.LimitExceeded("failure scope"))
    else ValidateText(f.detail, MAX_FAILURE_DETAIL_OCTETS, "failure detail")
  }

  function Validate(op: Operation): Outcome<Error> {
    match op
    case CapabilitiesOp(c) => ValidateCapabilities(c)
    case SummaryOp(s) => ValidateSummary(s)
    case OfferOp(o) => ValidateOffer(o)
    case RequestOp(InventoryPage(p)) => ValidatePageRequest(p)
    case RequestOp(RepresentationData(r)) => ValidateDataRequest(r)
    case DataOp(d) => ValidateData(d)
    case ReceiptOp(r) => ValidateReceipt(r)
    case FailureOp(f) => ValidateFailure(f)
  }

  function ValidateExtensions(s: seq<Extension>): Outcome<Error> {
    if |s| > MAX_EXTENSIONS then
      Fail(Error.LimitExceeded("extensions"))
    else if (exists e | e in s :: |e.value| > MAX_EXTENSION_VALUE_OCTETS) || !DistinctExtensions(s) then
      Fail(Error.LimitExceeded("extension"))
    else
      Pass
  }

  // ---- What a valid offer is ----

  /** Valid entries, sequences in 1..target, no sequence and no key twice. */
  ghost predicate GoodEntries(s: seq<Entry>, target: nat) {
    && (forall e | e in s :: e.Valid() && e.sequence <= target)
    && (forall i, j | 0 <= i < j < |s| :: s[i].sequence != s[j].sequence && s[i].Key() != s[j].Key())
  }

  lemma EntryIsValid(e: Entry)
    ensures ValidateEntry(e).Pass? <==> e.Valid()
  {
  }

  lemma {:induction false} ValidateEntriesMeans(s: seq<Entry>, i: nat, target: nat)
    requires i <= |s|
    ensures ValidateEntries(s, i, target).Pass? <==>
              forall k | i <= k < |s| :: s[k].Valid() && !EntryConflicts(s, k, target)
    decreases |s| - i
  {
    hide ValidateEntry, EntryConflicts;
    if i < |s| {
      EntryIsValid(s[i]);
      ValidateEntriesMeans(s, i + 1, target);
    }
  }

  /** The sequential check passes exactly for good entries. */
  lemma GoodEntriesPass(s: seq<Entry>, target: nat)
    ensures ValidateEntries(s, 0, target).Pass? <==> GoodEntries(s, target)
  {
    ValidateEntriesMeans(s, 0, target);
    if GoodEntries(s, target) {
      forall k | 0 <= k < |s|
        ensures s[k].Valid() && !EntryConflicts(s, k, target)
      {
        assert s[k] in s;
      }
    } else if ValidateEntries(s, 0, target).Pass? {
      forall i, j | 0 <= i < j < |s|
        ensures s[i].sequence != s[j].sequence && s[i].Key() != s[j].Key()
      {
        assert !EntryConflicts(s, j, target);
      }
    }
  }

  /** An offer passes exactly when it is a non-empty bounded ascending page of good entries framed by its cursors. */
  lemma ValidOfferMeans(o: Offer)
    ensures ValidateOffer(o).Pass? <==>
              && 1 <= |o.descriptors| <= MAX_OFFER_DESCRIPTORS
              && o.baseGeneration <= o.targetGeneration
              && GoodEntries(o.descriptors, o.targetGeneration)
              && Ascending(o.mode, o.descriptors)
              && o.firstCursor == CursorAt(o.mode, o.descriptors[0])
              && o.lastCursor == CursorAt(o.mode, o.descriptors[|o.descriptors| - 1])
  {
    GoodEntriesPass(o.descriptors, o.targetGeneration);
  }
}
