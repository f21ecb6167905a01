/** The compact record form: aliases for one capability value and one cached summary, the B1 content otherwise. */
module CompactCodec {
  import opened Wrappers
  import opened Octets
  import opened Operations
  import opened Wire
  import opened B1Codec
  import opened B1Record
  import opened B1Maxima
  import Varint

  const HEADER_PREFIX := 0xb0
  const GENERIC_FORM: byte := 0
  const PROFILE_FORM: byte := 1
  const FULL_SUMMARY_FORM: byte := 1
  const CACHED_SUMMARY_FORM: byte := 2

  const BINDING_DOMAIN: Bytes :=
    [66, 69, 77, 80, 73, 67, 45, 67, 79, 77, 80, 65, 67, 84, 45, 83, 85, 77, 77, 65, 82, 89, 45, 67, 65, 67, 72, 69, 45, 118, 48, 46, 49, 0]

  const PROFILE_SCHEMA: Octets32 :=
    [216, 144, 106, 28, 239, 191, 137, 228, 242, 155, 74, 15, 99, 108, 251, 250,
     30, 156, 99, 1, 231, 227, 164, 254, 33, 60, 9, 0, 102, 248, 231, 151]

  /** Codec identity and durable checkpoint both ends have agreed on, and the digest function. */
  datatype Context = Context(sha: Hash, codecId: u32, revision: u32, cached: Option<Summary>)

  /** The cached checkpoint, if any, is one a peer could have sent. */
  predicate ValidContext(c: Context) {
    c.cached.Some? ==> ValidateSummary(c.cached.value).Pass?
  }

  function ProfileCapabilities(c: Context): Capabilities {
    Capabilities([Generation(0, 1)], [PROFILE_SCHEMA], [CodecPreference(c.codecId, c.revision, PROFILE_SCHEMA)],
                 1_048_576, 1_000_000, 15, Public, [])
  }

  function Binding(c: Context, s: Summary): Octets32 {
    c.sha(BINDING_DOMAIN + PutSummary(s, []))
  }

  // ---- Forms ----

  datatype Form = ProfileForm | CachedForm(summary: Summary) | SummaryForm(summary: Summary) | GenericForm

  function CanonicalForm(r: Record, c: Context): Form {
    if r.extensions != [] then
      GenericForm
    else
      match r.operation
      case CapabilitiesOp(x) => if x == ProfileCapabilities(c) then ProfileForm else GenericForm
      case SummaryOp(s) => if c.cached == Some(s) then CachedForm(s) else SummaryForm(s)
      case _ => GenericForm
  }

  function BodySize(r: Record, c: Context): Result<nat, Error> {
    var legacy :- ExactSize(r);
    Ok(match CanonicalForm(r, c)
       case ProfileForm => 1
       case CachedForm(_) => 1 + 32
       case SummaryForm(s) => 1 + 32 + Varint.Size(s.generation) + Varint.Size(s.itemCount) + 32
       case GenericForm => 1 + legacy - ENVELOPE_OCTETS)
  }

  function ExactCompactSize(r: Record, c: Context): Result<nat, Error> {
    var body :- BodySize(r, c);
    var size := 1 + Varint.LengthSize(body) + body;
    if size > MAX_RECORD_OCTETS then Err(Error.LimitExceeded("compact operation size")) else Ok(size)
  }

  function PutFullSummary(s: Summary, tail: Bytes): Bytes {
    s.collectionId + (Varint.Image(s.generation) + (Varint.Image(s.itemCount) + (s.digest + tail)))
  }

  function Body(r: Record, c: Context): Bytes
    requires ExactSize(r).Ok?
  {
    ValidFits(r.operation);
    match CanonicalForm(r, c)
    case ProfileForm => [PROFILE_FORM]
    case CachedForm(s) => [CACHED_SUMMARY_FORM] + Binding(c, s)
    case SummaryForm(s) => [FULL_SUMMARY_FORM] + PutFullSummary(s, [])
    case GenericForm => [GENERIC_FORM] + Content(r)
  }

  function EncodeCompact(r: Record, c: Context): Result<Bytes, Error> {
    var size :- ExactCompactSize(r, c);
    var body := BodySize(r, c).value;
    Ok([HEADER_PREFIX + Tag(r.operation)] + (Varint.Image(body) + Body(r, c)))
  }

  // ---- Decoding ----

  function GetFullSummary(s: Bytes): (r: Parsed<Summary>)
    ensures r.Parsed? ==> s == PutFullSummary(r.value, r.rest)
  {
    var (id, s1) :- GetArray32(s);
    var generation := Varint.Get(s1);
    if generation.Failed? then Failed(generation.error) else
    Varint.GetCanonical(s1);
    var count := Varint.Get(generation.rest);
    if count.Failed? then Failed(count.error) else
    Varint.GetCanonical(generation.rest);
    var (digest, s4) :- GetArray32(count.rest);
    Parsed(Summary(id, generation.value, count.value, digest), s4)
  }

  lemma GotFullSummary(s: Summary)
    ensures GetFullSummary(PutFullSummary(s, [])) == Parsed(s, [])
  {
    var t2 := Varint.Image(s.itemCount) + (s.digest + []);
    var t1 := Varint.Image(s.generation) + t2;
    GotArray32(s.collectionId, t1);
    Varint.GotVarint(s.generation, t2);
    Varint.GotVarint(s.itemCount, s.digest + []);
    GotArray32(s.digest, []);
  }

  function DecodeFullSummary(content: Bytes, c: Context): Result<Record, Error> {
    var parsed := GetFullSummary(content);
    if parsed.Failed? then Err(parsed.error)
    else if parsed.rest != [] then Err(TrailingBytes)
    else
      var record := Record(SummaryOp(parsed.value), []);
      var size :- ExactSize(record);
      if c.cached == Some(parsed.value) then Err(NonCanonical("full cached summary")) else Ok(record)
  }

  function DecodeCachedSummary(content: Bytes, c: Context): Result<Record, Error> {
    var binding := GetArray32(content);
    if binding.Failed? then Err(binding.error)
    else if binding.rest != [] then Err(TrailingBytes)
    else if c.cached.None? then Err(Malformed("cached summary context"))
    else if binding.value != Binding(c, c.cached.value) then Err(Malformed("cached summary binding"))
    else Ok(Record(SummaryOp(c.cached.value), []))
  }

  /** A generic record must not be one that has an alias. */
  predicate Aliased(r: Record, c: Context) {
    r.extensions == [] && (r.operation == CapabilitiesOp(ProfileCapabilities(c)) || r.operation.SummaryOp?)
  }

  function DecodeGeneric(tag: byte, content: Bytes, supported: set<u32>, c: Context): Result<Record, Error> {
    if ENVELOPE_OCTETS + |content| > MAX_RECORD_OCTETS then
      Err(Error.LimitExceeded("operation size"))
    else
      var record :- Decode(Image(tag, |content|, content), supported);
      if Aliased(record, c) then
        Err(NonCanonical(if record.operation.SummaryOp? then "summary form" else "profile capabilities alias"))
      else
        Ok(record)
  }

  function DecodeBody(tag: byte, form: byte, content: Bytes, supported: set<u32>, c: Context): Result<Record, Error> {
    if tag == 1 && form == PROFILE_FORM && content == [] then Ok(Record(CapabilitiesOp(ProfileCapabilities(c)), []))
    else if tag == 2 && form == CACHED_SUMMARY_FORM then DecodeCachedSummary(content, c)
    else if tag == 2 && form == FULL_SUMMARY_FORM then DecodeFullSummary(content, c)
    else if form == GENERIC_FORM then DecodeGeneric(tag, content, supported, c)
    else Err(NonCanonical("compact form"))
  }

  /** Operation tag and body of a compact envelope. */
  datatype Envelope = Envelope(tag: byte, body: Bytes)

  function OpenEnvelope(bytes: Bytes): (r: Result<Envelope, Error>)
    ensures r.Ok? ==> 1 <= r.value.tag <= 7 && r.value.body != []
  {
    if |bytes| < 3 then Err(Truncated)
    else if |bytes| > MAX_RECORD_OCTETS then Err(Error.LimitExceeded("compact operation size"))
    else if bytes[0] - bytes[0] % 8 != HEADER_PREFIX then Err(InvalidMagic)
    else if bytes[0] % 8 == 0 then Err(UnknownOperation(0))
    else
      var length := Varint.Get(bytes[1..]);
      if length.Failed? then Err(length.error)
      else if length.value != |length.rest| then Err(Malformed("compact envelope length"))
      else if length.rest == [] then Err(Truncated)
      else Ok(Envelope(bytes[0] % 8, length.rest))
  }

  function DecodeCompact(bytes: Bytes, supported: set<u32>, c: Context): Result<Record, Error> {
    var e :- OpenEnvelope(bytes);
    DecodeBody(e.tag, e.body[0], e.body[1..], supported, c)
  }

  // ---- Sizes ----

  lemma BodySizeIsExact(r: Record, c: Context)
    requires ExactSize(r).Ok?
    ensures 0 < |Body(r, c)| == BodySize(r, c).value < MAX_RECORD_OCTETS
    ensures Varint.LengthSize(|Body(r, c)|) == |Varint.Image(|Body(r, c)|)|
  {
    ValidFits(r.operation);
    ContentSize(r);
    match CanonicalForm(r, c) {
      case SummaryForm(s) =>
        Varint.ImageSize(s.generation);
        Varint.ImageSize(s.itemCount);
        SizeOfU64(s.generation);
        SizeOfU64(s.itemCount);
      case _ =>
    }
    Varint.LengthSizeAgrees(|Body(r, c)|);
    Varint.ImageSize(|Body(r, c)|);
  }

  lemma SizeOfU64(n: u64)
    ensures Varint.Size(n) <= 10
  {
    var n1 := n / 0x80;
    var n2 := n1 / 0x80;
    var n3 := n2 / 0x80;
    var n4 := n3 / 0x80;
    Varint.LengthSizeAgrees(n / 0x8_0000_0000);
    assert n4 / 0x80 == n / 0x8_0000_0000;
    assert Varint.Size(n4) <= 1 + Varint.Size(n4 / 0x80);
    assert Varint.Size(n3) <= 1 + Varint.Size(n4);
    assert Varint.Size(n2) <= 1 + Varint.Size(n3);
    assert Varint.Size(n1) <= 1 + Varint.Size(n2);
    assert Varint.Size(n) <= 1 + Varint.Size(n1);
  }

  lemma BodyIsShort(r: Record, c: Context)
    requires ExactSize(r).Ok?
    ensures 1 + Varint.LengthSize(BodySize(r, c).value) + BodySize(r, c).value + 2 <= ExactSize(r).value
  {
    if CanonicalForm(r, c).SummaryForm? {
      SizeOfU64(r.operation.summary.generation);
      Varint.LengthSizeAgrees(r.operation.summary.itemCount);
    }
  }

  /** Every valid record is encodable, in exactly the predicted size, at least two octets shorter than its B1 image. */
  lemma CompactIsShorter(r: Record, c: Context)
    requires ExactSize(r).Ok?
    ensures EncodeCompact(r, c).Ok? && ExactCompactSize(r, c).Ok?
    ensures |EncodeCompact(r, c).value| == ExactCompactSize(r, c).value
    ensures |EncodeCompact(r, c).value| + 2 <= |Encode(r).value|
  {
    EncodedSizeIsExact(r);
    BodySizeIsExact(r, c);
    BodyIsShort(r, c);
  }

  function CompactMaximum(kind: Kind): nat {
    var body := 1 + DeclaredMaximum(kind) - ENVELOPE_OCTETS;
    1 + Varint.LengthSize(body) + body
  }

  /** The declared compact maximum of each kind bounds every record, and some record reaches it. */
  lemma CompactMaximumIsExact(kind: Kind, c: Context) returns (largest: Record)
    ensures KindOf(largest.operation) == kind && ExactCompactSize(largest, c) == Ok(CompactMaximum(kind))
    ensures forall r: Record | KindOf(r.operation) == kind && ExactSize(r).Ok? :: ExactCompactSize(r, c).Ok?
                       && ExactCompactSize(r, c).value <= CompactMaximum(kind)
  {
    largest := MaximumAttained(kind);
    BodyIsShort(largest, c);
    forall r: Record | KindOf(r.operation) == kind && ExactSize(r).Ok?
      ensures ExactCompactSize(r, c).Ok? && ExactCompactSize(r, c).value <= CompactMaximum(kind)
    {
      CompactWithinMaximum(r, c);
    }
  }

  lemma CompactWithinMaximum(r: Record, c: Context)
    requires ExactSize(r).Ok?
    ensures ExactCompactSize(r, c).Ok? && ExactCompactSize(r, c).value <= CompactMaximum(KindOf(r.operation))
  {
    SizeWithinMaximum(r);
    BodyIsShort(r, c);
    if CanonicalForm(r, c).SummaryForm? {
      SizeOfU64(r.operation.summary.generation);
      SizeOfU64(r.operation.summary.itemCount);
    }
  }
}
