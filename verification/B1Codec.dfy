/** The B1 record image: exact size, encoding and strict decoding of complete records. */
module B1Codec {
  import opened Wrappers
  import opened Octets
  import opened Representation
  import opened Operations
  import opened Wire
  import opened B1Fields

  const ENVELOPE_OCTETS := 7
  const MAGIC: Bytes := [66, 49]

  function Tag(op: Operation): byte {
    match op
    case CapabilitiesOp(_) => 1 case SummaryOp(_) => 2 case OfferOp(_) => 3 case RequestOp(_) => 4
    case DataOp(_) => 5 case ReceiptOp(_) => 6 case FailureOp(_) => 7
  }

  // ---- Operation payloads ----

  ghost predicate Counted(c: Capabilities) {
    |c.generations| < 0x100 && |c.schemas| < 0x100 && |c.codecs| < 0x100 && |c.extensions| < 0x100
  }

  function PutCapabilities(c: Capabilities, tail: Bytes): Bytes
    requires Counted(c)
  {
    [|c.generations|] + PutMany(PutGeneration, c.generations,
    [|c.schemas|] + PutMany(PutSchema, c.schemas,
    [|c.codecs|] + PutMany(PutPreference, c.codecs, PutLimits(c, tail))))
  }

  /** The scalar members of a capability value and its extension declarations. */
  function PutLimits(c: Capabilities, tail: Bytes): Bytes
    requires |c.extensions| < 0x100
  {
    BE32(c.maxOperationOctets) + (BE64(c.maxDataPayloadOctets) + ([c.receiptLevels] + ([SecurityTag(c.securityClass)]
    + ([|c.extensions|] + PutMany(PutDeclaration, c.extensions, tail)))))
  }

  function GetLimits(generations: seq<Generation>, schemas: seq<Octets32>, codecs: seq<CodecPreference>, s: Bytes): (r: Parsed<Capabilities>)
    ensures r.Parsed? ==>
              && r.value.generations == generations && r.value.schemas == schemas && r.value.codecs == codecs
              && |r.value.extensions| <= MAX_EXTENSIONS
              && s == PutLimits(r.value, r.rest)
  {
    DeclarationsRoundTrip();
    var (maxOperation, s1) :- GetU32(s);
    var (maxData, s2) :- GetU64(s1);
    var (levels, s3) :- GetU8(s2);
    var (security, s4) :- GetSecurity(s3);
    var (n, s5) :- GetCount(MAX_EXTENSIONS, s4);
    ManyCanonical(GetDeclaration, PutDeclaration, n, s5);
    var (extensions, s6) :- GetMany(GetDeclaration, n, s5);
    Parsed(Capabilities(generations, schemas, codecs, maxOperation, maxData, levels, security, extensions), s6)
  }

  function GetGenerations(s: Bytes): (r: Parsed<seq<Generation>>)
    ensures r.Parsed? ==> |r.value| <= MAX_CAPABILITY_PROTOCOLS && s == [|r.value|] + PutMany(PutGeneration, r.value, r.rest)
  {
    GenerationsRoundTrip();
    var (n, s1) :- GetCount(MAX_CAPABILITY_PROTOCOLS, s);
    ManyCanonical(GetGeneration, PutGeneration, n, s1);
    GetMany(GetGeneration, n, s1)
  }

  function GetSchemas(s: Bytes): (r: Parsed<seq<Octets32>>)
    ensures r.Parsed? ==> |r.value| <= MAX_CAPABILITY_SCHEMAS && s == [|r.value|] + PutMany(PutSchema, r.value, r.rest)
  {
    SchemasRoundTrip();
    var (n, s1) :- GetCount(MAX_CAPABILITY_SCHEMAS, s);
    ManyCanonical(GetArray32, PutSchema, n, s1);
    GetMany(GetArray32, n, s1)
  }

  function GetPreferences(s: Bytes): (r: Parsed<seq<CodecPreference>>)
    ensures r.Parsed? ==> |r.value| <= MAX_CAPABILITY_CODECS && s == [|r.value|] + PutMany(PutPreference, r.value, r.rest)
  {
    PreferencesRoundTrip();
    var (n, s1) :- GetCount(MAX_CAPABILITY_CODECS, s);
    ManyCanonical(GetPreference, PutPreference, n, s1);
    GetMany(GetPreference, n, s1)
  }

  function GetCapabilities(s: Bytes): (r: Parsed<Capabilities>)
    ensures r.Parsed? ==> Counted(r.value) && s == PutCapabilities(r.value, r.rest)
  {
    var (generations, s1) :- GetGenerations(s);
    var (schemas, s2) :- GetSchemas(s1);
    var (codecs, s3) :- GetPreferences(s2);
    GetLimits(generations, schemas, codecs, s3)
  }

  lemma GotLimits(c: Capabilities, tail: Bytes)
    requires |c.extensions| <= MAX_EXTENSIONS
    ensures GetLimits(c.generations, c.schemas, c.codecs, PutLimits(c, tail)) == Parsed(c, tail)
  {
    DeclarationsRoundTrip();
    var t4 := PutMany(PutDeclaration, c.extensions, tail);
    var t3 := [|c.extensions| as byte] + t4;
    var t2 := [SecurityTag(c.securityClass)] + t3;
    var t1 := [c.receiptLevels] + t2;
    GotU32(c.maxOperationOctets, BE64(c.maxDataPayloadOctets) + t1);
    GotU64(c.maxDataPayloadOctets, t1);
    GotU8(c.receiptLevels, t2);
    GotTags(c.securityClass, Delta, ApplicationAccepted, FailureCode.MetadataConflict, t3);
    GotCount(MAX_EXTENSIONS, |c.extensions|, t4);
    GotMany(GetDeclaration, PutDeclaration, c.extensions, tail);
  }

  lemma GotGenerations(xs: seq<Generation>, tail: Bytes)
    requires |xs| <= MAX_CAPABILITY_PROTOCOLS
    ensures GetGenerations([|xs|] + PutMany(PutGeneration, xs, tail)) == Parsed(xs, tail)
  {
    GenerationsRoundTrip();
    GotMany(GetGeneration, PutGeneration, xs, tail);
    GotCount(MAX_CAPABILITY_PROTOCOLS, |xs|, PutMany(PutGeneration, xs, tail));
  }

  lemma GotSchemas(xs: seq<Octets32>, tail: Bytes)
    requires |xs| <= MAX_CAPABILITY_SCHEMAS
    ensures GetSchemas([|xs|] + PutMany(PutSchema, xs, tail)) == Parsed(xs, tail)
  {
    SchemasRoundTrip();
    GotMany(GetArray32, PutSchema, xs, tail);
    GotCount(MAX_CAPABILITY_SCHEMAS, |xs|, PutMany(PutSchema, xs, tail));
  }

  lemma GotPreferences(xs: seq<CodecPreference>, tail: Bytes)
    requires |xs| <= MAX_CAPABILITY_CODECS
    ensures GetPreferences([|xs|] + PutMany(PutPreference, xs, tail)) == Parsed(xs, tail)
  {
    PreferencesRoundTrip();
    GotMany(GetPreference, PutPreference, xs, tail);
    GotCount(MAX_CAPABILITY_CODECS, |xs|, PutMany(PutPreference, xs, tail));
  }

  lemma GotCapabilities(c: Capabilities, tail: Bytes)
    requires ValidateCapabilities(c).Pass?
    ensures GetCapabilities(PutCapabilities(c, tail)) == Parsed(c, tail)
  {
    var t3 := PutLimits(c, tail);
    var t2 := [|c.codecs| as byte] + PutMany(PutPreference, c.codecs, t3);
    var t1 := [|c.schemas| as byte] + PutMany(PutSchema, c.schemas, t2);
    GotGenerations(c.generations, t1);
    GotSchemas(c.schemas, t2);
    GotPreferences(c.codecs, t3);
    GotLimits(c, tail);
  }

  function PutSummary(x: Summary, tail: Bytes): Bytes {
    x.collectionId + (BE64(x.generation) + (BE64(x.itemCount) + (x.digest + tail)))
  }

  function GetSummary(s: Bytes): (r: Parsed<Summary>)
    ensures r.Parsed? ==> s == PutSummary(r.value, r.rest)
  {
    var (id, s1) :- GetArray32(s);
    var (generation, s2) :- GetU64(s1);
    var (count, s3) :- GetU64(s2);
    var (digest, s4) :- GetArray32(s3);
    Parsed(Summary(id, generation, count, digest), s4)
  }

  lemma GotSummary(x: Summary, tail: Bytes)
    ensures GetSummary(PutSummary(x, tail)) == Parsed(x, tail)
  {
    GotArray32(x.collectionId, BE64(x.generation) + (BE64(x.itemCount) + (x.digest + tail)));
    GotU64(x.generation, BE64(x.itemCount) + (x.digest + tail));
    GotU64(x.itemCount, x.digest + tail);
    GotArray32(x.digest, tail);
  }

  function PutOffer(o: Offer, tail: Bytes): Bytes
    requires |o.descriptors| < 0x100 && Writable(o.descriptors)
  {
    o.collectionId + ([ModeTag(o.mode)] + (BE64(o.baseGeneration) + (BE64(o.targetGeneration)
    + PutCursor(o.firstCursor, PutCursor(o.lastCursor, [|o.descriptors|] + PutEntries(o.descriptors, PutBool(o.more, tail)))))))
  }

  function GetOffer(s: Bytes): (r: Parsed<Offer>)
    ensures r.Parsed? ==>
              && |r.value.descriptors| <= MAX_OFFER_DESCRIPTORS && Writable(r.value.descriptors)
              && s == PutOffer(r.value, r.rest)
  {
    var (id, s1) :- GetArray32(s);
    var (mode, s2) :- GetMode(s1);
    var (base, s3) :- GetU64(s2);
    var (target, s4) :- GetU64(s3);
    var (first, s5) :- GetCursor(s4);
    var (last, s6) :- GetCursor(s5);
    var (n, s7) :- GetCount(MAX_OFFER_DESCRIPTORS, s6);
    var (entries, s8) :- GetEntries(n, s7);
    var (more, s9) :- GetBool(s8);
    Parsed(Offer(id, mode, base, target, first, last, entries, more), s9)
  }

  lemma GotOffer(o: Offer, tail: Bytes)
    requires |o.descriptors| <= MAX_OFFER_DESCRIPTORS && forall e | e in o.descriptors :: e.Valid()
    ensures Writable(o.descriptors)
    ensures GetOffer(PutOffer(o, tail)) == Parsed(o, tail)
  {
    var t8 := PutBool(o.more, tail);
    GotEntries(o.descriptors, t8);
    var t7 := PutEntries(o.descriptors, t8);
    var t6 := [|o.descriptors| as byte] + t7;
    var t5 := PutCursor(o.lastCursor, t6);
    var t4 := PutCursor(o.firstCursor, t5);
    GotArray32(o.collectionId, [ModeTag(o.mode)] + (BE64(o.baseGeneration) + (BE64(o.targetGeneration) + t4)));
    GotTags(Public, o.mode, ApplicationAccepted, FailureCode.MetadataConflict, BE64(o.baseGeneration) + (BE64(o.targetGeneration) + t4));
    GotU64(o.baseGeneration, BE64(o.targetGeneration) + t4);
    GotU64(o.targetGeneration, t4);
    GotCursor(o.firstCursor, t5);
    GotCursor(o.lastCursor, t6);
    GotCount(MAX_OFFER_DESCRIPTORS, |o.descriptors|, t7);
    GotBool(o.more, tail);
  }

  function PutPage(p: InventoryPageRequest, tail: Bytes): Bytes {
    p.collectionId + (BE64(p.targetGeneration) + ([ModeTag(p.mode)] + PutCursor(p.committedCursor, [p.pageEntryLimit] + tail)))
  }

  function GetPage(s: Bytes): (r: Parsed<InventoryPageRequest>)
    ensures r.Parsed? ==> s == PutPage(r.value, r.rest)
  {
    var (id, s1) :- GetArray32(s);
    var (target, s2) :- GetU64(s1);
    var (mode, s3) :- GetMode(s2);
    var (cursor, s4) :- GetCursor(s3);
    var (limit, s5) :- GetU8(s4);
    Parsed(InventoryPageRequest(id, target, mode, cursor, limit), s5)
  }

  lemma GotPage(p: InventoryPageRequest, tail: Bytes)
    ensures GetPage(PutPage(p, tail)) == Parsed(p, tail)
  {
    var t3 := PutCursor(p.committedCursor, [p.pageEntryLimit] + tail);
    GotArray32(p.collectionId, BE64(p.targetGeneration) + ([ModeTag(p.mode)] + t3));
    GotU64(p.targetGeneration, [ModeTag(p.mode)] + t3);
    GotTags(Public, p.mode, ApplicationAccepted, FailureCode.MetadataConflict, t3);
    GotCursor(p.committedCursor, [p.pageEntryLimit] + tail);
    GotU8(p.pageEntryLimit, tail);
  }

  function PutDataRequest(q: DataRequest, tail: Bytes): Bytes
    requires |q.selections| < 0x100
  {
    q.budgetId + (BE64(q.maxTotal) + (BE64(q.maxSenderToReceiver) + (BE64(q.maxReceiverToSender)
    + ([|q.selections|] + PutMany(PutSelection, q.selections, tail)))))
  }

  function GetDataRequest(s: Bytes): (r: Parsed<DataRequest>)
    ensures r.Parsed? ==> |r.value.selections| <= MAX_REQUEST_SELECTIONS && s == PutDataRequest(r.value, r.rest)
  {
    SelectionsRoundTrip();
    var (id, s1) :- GetArray16(s);
    var (total, s2) :- GetU64(s1);
    var (forward, s3) :- GetU64(s2);
    var (backward, s4) :- GetU64(s3);
    var (n, s5) :- GetCount(MAX_REQUEST_SELECTIONS, s4);
    ManyCanonical(GetSelection, PutSelection, n, s5);
    var (selections, s6) :- GetMany(GetSelection, n, s5);
    Parsed(DataRequest(id, total, forward, backward, selections), s6)
  }

  lemma GotDataRequest(q: DataRequest, tail: Bytes)
    requires |q.selections| <= MAX_REQUEST_SELECTIONS
    ensures GetDataRequest(PutDataRequest(q, tail)) == Parsed(q, tail)
  {
    SelectionsRoundTrip();
    var t5 := PutMany(PutSelection, q.selections, tail);
    var t4 := [|q.selections| as byte] + t5;
    GotArray16(q.budgetId, BE64(q.maxTotal) + (BE64(q.maxSenderToReceiver) + (BE64(q.maxReceiverToSender) + t4)));
    GotU64(q.maxTotal, BE64(q.maxSenderToReceiver) + (BE64(q.maxReceiverToSender) + t4));
    GotU64(q.maxSenderToReceiver, BE64(q.maxReceiverToSender) + t4);
    GotU64(q.maxReceiverToSender, t4);
    GotCount(MAX_REQUEST_SELECTIONS, |q.selections|, t5);
    GotMany(GetSelection, PutSelection, q.selections, tail);
  }

  function PutData(d: Data, tail: Bytes): Bytes
    requires |d.payload| < 0x1_0000_0000
  {
    d.representationId + (BE64(d.offset) + (BE32(|d.payload|) + (d.payload + tail)))
  }

  function GetData(s: Bytes): (r: Parsed<Data>)
    ensures r.Parsed? ==> |r.value.payload| <= MAX_RECORD_OCTETS && s == PutData(r.value, r.rest)
  {
    var (id, s1) :- GetArray32(s);
    var (offset, s2) :- GetU64(s1);
    var (n, s3) :- GetU32Length(MAX_RECORD_OCTETS, s2);
    var (payload, s4) :- Take(n, s3);
    Parsed(Data(id, offset, payload), s4)
  }

  lemma GotData(d: Data, tail: Bytes)
    requires |d.payload| <= MAX_RECORD_OCTETS
    ensures GetData(PutData(d, tail)) == Parsed(d, tail)
  {
    GotArray32(d.representationId, BE64(d.offset) + (BE32(|d.payload|) + (d.payload + tail)));
    GotU64(d.offset, BE32(|d.payload|) + (d.payload + tail));
    GotU32(|d.payload|, d.payload + tail);
    TakeTook(d.payload, tail);
  }

  function PutReceipt(x: Receipt, tail: Bytes): Bytes
    requires x.reason.Some? ==> |x.reason.value| < 0x1_0000
  {
    x.subjectId + ([StatusTag(x.status)] + PutOptionArray(x.verifiedDigest, x.idempotencyId + PutText(x.reason, tail)))
  }

  function GetReceipt(s: Bytes): (r: Parsed<Receipt>)
    ensures r.Parsed? ==>
              ValidateText(r.value.reason, MAX_FAILURE_DETAIL_OCTETS, "text").Pass? && s == PutReceipt(r.value, r.rest)
  {
    var (subject, s1) :- GetArray32(s);
    var (status, s2) :- GetStatus(s1);
    var (digest, s3) :- GetOptionArray(s2);
    var (id, s4) :- GetArray16(s3);
    var (reason, s5) :- GetText(MAX_FAILURE_DETAIL_OCTETS, s4);
    Parsed(Receipt(subject, status, digest, id, reason), s5)
  }

  lemma GotReceipt(x: Receipt, tail: Bytes)
    requires ValidateReceipt(x).Pass?
    ensures GetReceipt(PutReceipt(x, tail)) == Parsed(x, tail)
  {
    var t4 := PutText(x.reason, tail);
    var t2 := PutOptionArray(x.verifiedDigest, x.idempotencyId + t4);
    GotArray32(x.subjectId, [StatusTag(x.status)] + t2);
    GotTags(Public, Delta, x.status, FailureCode.MetadataConflict, t2);
    GotOptionArray(x.verifiedDigest, x.idempotencyId + t4);
    GotArray16(x.idempotencyId, t4);
    GotText(MAX_FAILURE_DETAIL_OCTETS, x.reason, "receipt reason", tail);
  }

  function PutFailure(x: Failure, tail: Bytes): Bytes
    requires |x.scope| < 0x100 && (x.detail.Some? ==> |x.detail.value| < 0x1_0000)
  {
    [CodeTag(x.code)] + PutU8Octets(x.scope, PutBool(x.retryable, PutText(x.detail, tail)))
  }

  function GetFailure(s: Bytes): (r: Parsed<Failure>)
    ensures r.Parsed? ==>
              && |r.value.scope| <= MAX_FAILURE_SCOPE_OCTETS
              && ValidateText(r.value.detail, MAX_FAILURE_DETAIL_OCTETS, "text").Pass?
              && s == PutFailure(r.value, r.rest)
  {
    var (code, s1) :- GetCode(s);
    var (scope, s2) :- GetU8Octets(MAX_FAILURE_SCOPE_OCTETS, s1);
    var (retryable, s3) :- GetBool(s2);
    var (detail, s4) :- GetText(MAX_FAILURE_DETAIL_OCTETS, s3);
    Parsed(Failure(code, scope, retryable, detail), s4)
  }

  lemma GotFailure(x: Failure, tail: Bytes)
    requires ValidateFailure(x).Pass?
    ensures GetFailure(PutFailure(x, tail)) == Parsed(x, tail)
  {
    var t3 := PutText(x.detail, tail);
    var t2 := PutBool(x.retryable, t3);
    GotTags(Public, Delta, ApplicationAccepted, x.code, PutU8Octets(x.scope, t2));
    GotU8Octets(MAX_FAILURE_SCOPE_OCTETS, x.scope, t2);
    GotBool(x.retryable, t3);
    GotText(MAX_FAILURE_DETAIL_OCTETS, x.detail, "failure detail", tail);
  }

  // ---- Any operation ----

  /** Every count and length fits the field that carries it. */
  ghost predicate Fits(op: Operation) {
    match op
    case CapabilitiesOp(c) => Counted(c)
    case SummaryOp(_) => true
    case OfferOp(o) => |o.descriptors| < 0x100 && Writable(o.descriptors)
    case RequestOp(InventoryPage(_)) => true
    case RequestOp(RepresentationData(q)) => |q.selections| < 0x100
    case DataOp(d) => |d.payload| < 0x1_0000_0000
    case ReceiptOp(x) => x.reason.Some? ==> |x.reason.value| < 0x1_0000
    case FailureOp(x) => |x.scope| < 0x100 && (x.detail.Some? ==> |x.detail.value| < 0x1_0000)
  }

  function PutOperation(op: Operation, tail: Bytes): Bytes
    requires Fits(op)
  {
    match op
    case CapabilitiesOp(c) => PutCapabilities(c, tail)
    case SummaryOp(x) => PutSummary(x, tail)
    case OfferOp(o) => PutOffer(o, tail)
    case RequestOp(InventoryPage(p)) => [0] + PutPage(p, tail)
    case RequestOp(RepresentationData(q)) => [1] + PutDataRequest(q, tail)
    case DataOp(d) => PutData(d, tail)
    case ReceiptOp(x) => PutReceipt(x, tail)
    case FailureOp(x) => PutFailure(x, tail)
  }

  function GetRequest(s: Bytes): (r: Parsed<Request>)
    ensures r.Parsed? ==> Fits(RequestOp(r.value)) && s == PutOperation(RequestOp(r.value), r.rest)
  {
    var (variant, s1) :- GetU8(s);
    if variant == 0 then
      var (p, s2) :- GetPage(s1);
      Parsed(InventoryPage(p), s2)
    else if variant == 1 then
      var (q, s2) :- GetDataRequest(s1);
      Parsed(RepresentationData(q), s2)
    else
      Failed(Malformed("request variant"))
  }

  function GetOperation(tag: byte, s: Bytes): (r: Parsed<Operation>)
    ensures r.Parsed? ==> Tag(r.value) == tag && Fits(r.value) && s == PutOperation(r.value, r.rest)
  {
    match tag
    case 1 => GetCapabilities(s).Map(x => CapabilitiesOp(x))
    case 2 => GetSummary(s).Map(x => SummaryOp(x))
    case 3 => GetOffer(s).Map(x => OfferOp(x))
    case 4 => GetRequest(s).Map(x => RequestOp(x))
    case 5 => GetData(s).Map(x => DataOp(x))
    case 6 => GetReceipt(s).Map(x => ReceiptOp(x))
    case 7 => GetFailure(s).Map(x => FailureOp(x))
    case _ => Failed(UnknownOperation(tag))
  }

  /** `GetOperation` returns what the reader of its tag returns. */
  lemma OperationRead(s: Bytes, op: Operation, tail: Bytes)
    requires match op
             case CapabilitiesOp(x) => GetCapabilities(s) == Parsed(x, tail)
             case SummaryOp(x) => GetSummary(s) == Parsed(x, tail)
             case OfferOp(x) => GetOffer(s) == Parsed(x, tail)
             case RequestOp(x) => GetRequest(s) == Parsed(x, tail)
             case DataOp(x) => GetData(s) == Parsed(x, tail)
             case ReceiptOp(x) => GetReceipt(s) == Parsed(x, tail)
             case FailureOp(x) => GetFailure(s) == Parsed(x, tail)
    ensures GetOperation(Tag(op), s) == Parsed(op, tail)
  {
    hide GetCapabilities, GetSummary, GetOffer, GetRequest, GetData, GetReceipt, GetFailure, PutOperation, Fits;
  }

  lemma GotRequest(q: Request, tail: Bytes)
    requires Validate(RequestOp(q)).Pass?
    ensures Fits(RequestOp(q)) && GetRequest(PutOperation(RequestOp(q), tail)) == Parsed(q, tail)
  {
    match q
    case InventoryPage(p) => GotU8(0, PutPage(p, tail)); GotPage(p, tail);
    case RepresentationData(x) => GotU8(1, PutDataRequest(x, tail)); GotDataRequest(x, tail);
  }

  lemma GotOperation(op: Operation, tail: Bytes)
    requires Validate(op).Pass? && (op.DataOp? ==> |op.data.payload| <= MAX_RECORD_OCTETS)
    ensures Fits(op)
    ensures GetOperation(Tag(op), PutOperation(op, tail)) == Parsed(op, tail)
  {
    match op
    case CapabilitiesOp(x) => GotCapabilities(x, tail); OperationRead(PutCapabilities(x, tail), op, tail);
    case SummaryOp(x) => GotSummary(x, tail); OperationRead(PutSummary(x, tail), op, tail);
    case OfferOp(x) => ValidOfferMeans(x); GotOffer(x, tail); OperationRead(PutOffer(x, tail), op, tail);
    case RequestOp(x) => GotRequest(x, tail); OperationRead(PutOperation(op, tail), op, tail);
    case DataOp(x) => GotData(x, tail); OperationRead(PutData(x, tail), op, tail);
    case ReceiptOp(x) => GotReceipt(x, tail); OperationRead(PutReceipt(x, tail), op, tail);
    case FailureOp(x) => GotFailure(x, tail); OperationRead(PutFailure(x, tail), op, tail);
  }
}
