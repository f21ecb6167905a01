/** Images of the structured fields of B1 operations. */
module B1Fields {
  import opened Wrappers
  import opened Octets
  import opened Representation
  import opened Operations
  import opened Wire

  // ---- Fixed-width items ----

  function PutGeneration(g: Generation, tail: Bytes): Bytes {
    BE16(g.major) + (BE16(g.minor) + tail)
  }

  function GetGeneration(s: Bytes): (r: Parsed<Generation>)
    ensures r.Parsed? ==> s == PutGeneration(r.value, r.rest)
  {
    var (major, s1) :- GetU16(s);
    var (minor, s2) :- GetU16(s1);
    Parsed(Generation(major, minor), s2)
  }

  function PutSchema(a: Octets32, tail: Bytes): Bytes {
    a + tail
  }

  function PutPreference(p: CodecPreference, tail: Bytes): Bytes {
    BE32(p.codecId) + (BE32(p.revision) + (p.schema + tail))
  }

  function GetPreference(s: Bytes): (r: Parsed<CodecPreference>)
    ensures r.Parsed? ==> s == PutPreference(r.value, r.rest)
  {
    var (codecId, s1) :- GetU32(s);
    var (revision, s2) :- GetU32(s1);
    var (schema, s3) :- GetArray32(s2);
    Parsed(CodecPreference(codecId, revision, schema), s3)
  }

  function PutDeclaration(e: ExtensionDeclaration, tail: Bytes): Bytes {
    BE32(e.id) + PutBool(e.critical, tail)
  }

  function GetDeclaration(s: Bytes): (r: Parsed<ExtensionDeclaration>)
    ensures r.Parsed? ==> s == PutDeclaration(r.value, r.rest)
  {
    var (id, s1) :- GetU32(s);
    var (critical, s2) :- GetBool(s1);
    Parsed(ExtensionDeclaration(id, critical), s2)
  }

  function PutSelection(x: Selection, tail: Bytes): Bytes {
    x.representationId + (BE64(x.durablePrefixOffset) + (BE64(x.maxDesiredPayloadOctets) + tail))
  }

  function GetSelection(s: Bytes): (r: Parsed<Selection>)
    ensures r.Parsed? ==> s == PutSelection(r.value, r.rest)
  {
    var (id, s1) :- GetArray32(s);
    var (offset, s2) :- GetU64(s1);
    var (desired, s3) :- GetU64(s2);
    Parsed(Selection(id, offset, desired), s3)
  }

  lemma GenerationsRoundTrip()
    ensures RoundTrips(GetGeneration, PutGeneration) && Canonical(GetGeneration, PutGeneration)
    ensures forall g, t :: |PutGeneration(g, t)| == 4 + |t|
  {
    forall g: Generation, tail: Bytes
      ensures GetGeneration(PutGeneration(g, tail)) == Parsed(g, tail)
    {
      GotU16(g.major, BE16(g.minor) + tail);
      GotU16(g.minor, tail);
    }
  }

  lemma SchemasRoundTrip()
    ensures RoundTrips(GetArray32, PutSchema) && Canonical(GetArray32, PutSchema)
    ensures forall a, t :: |PutSchema(a, t)| == 32 + |t|
  {
    forall a: Octets32, tail: Bytes
      ensures GetArray32(PutSchema(a, tail)) == Parsed(a, tail)
    {
      GotArray32(a, tail);
    }
  }

  lemma PreferencesRoundTrip()
    ensures RoundTrips(GetPreference, PutPreference) && Canonical(GetPreference, PutPreference)
    ensures forall p, t :: |PutPreference(p, t)| == 40 + |t|
  {
    forall p: CodecPreference, tail: Bytes
      ensures GetPreference(PutPreference(p, tail)) == Parsed(p, tail)
    {
      GotU32(p.codecId, BE32(p.revision) + (p.schema + tail));
      GotU32(p.revision, p.schema + tail);
      GotArray32(p.schema, tail);
    }
  }

  lemma DeclarationsRoundTrip()
    ensures RoundTrips(GetDeclaration, PutDeclaration) && Canonical(GetDeclaration, PutDeclaration)
    ensures forall e, t :: |PutDeclaration(e, t)| == 5 + |t|
  {
    forall e: ExtensionDeclaration, tail: Bytes
      ensures GetDeclaration(PutDeclaration(e, tail)) == Parsed(e, tail)
    {
      GotU32(e.id, PutBool(e.critical, tail));
      GotBool(e.critical, tail);
    }
  }

  lemma SelectionsRoundTrip()
    ensures RoundTrips(GetSelection, PutSelection) && Canonical(GetSelection, PutSelection)
    ensures forall x, t :: |PutSelection(x, t)| == 48 + |t|
  {
    forall x: Selection, tail: Bytes
      ensures GetSelection(PutSelection(x, tail)) == Parsed(x, tail)
    {
      GotArray32(x.representationId, BE64(x.durablePrefixOffset) + (BE64(x.maxDesiredPayloadOctets) + tail));
      GotU64(x.durablePrefixOffset, BE64(x.maxDesiredPayloadOctets) + tail);
      GotU64(x.maxDesiredPayloadOctets, tail);
    }
  }

  // ---- Enumerations ----

  function SecurityTag(c: SecurityClass): byte {
    match c case Public => 0 case AuthenticatedPublic => 1 case Confidential => 2
  }

  function GetSecurity(s: Bytes): (r: Parsed<SecurityClass>)
    ensures r.Parsed? ==> s == [SecurityTag(r.value)] + r.rest
  {
    var (b, s1) :- GetU8(s);
    if b == 0 then Parsed(Public, s1)
    else if b == 1 then Parsed(AuthenticatedPublic, s1)
    else if b == 2 then Parsed(Confidential, s1)
    else Failed(Malformed("security_class"))
  }

  function ModeTag(m: OfferMode): byte {
    match m case Delta => 0 case Full => 1
  }

  function GetMode(s: Bytes): (r: Parsed<OfferMode>)
    ensures r.Parsed? ==> s == [ModeTag(r.value)] + r.rest
  {
    var (b, s1) :- GetU8(s);
    if b == 0 then Parsed(Delta, s1) else if b == 1 then Parsed(Full, s1) else Failed(Malformed("offer mode"))
  }

  function StatusTag(s: ReceiptStatus): byte {
    match s
    case RepresentationCommitted => 0 case ApplicationAccepted => 1 case ApplicationDelivered => 2 case ApplicationRejected => 3
  }

  function GetStatus(s: Bytes): (r: Parsed<ReceiptStatus>)
    ensures r.Parsed? ==> s == [StatusTag(r.value)] + r.rest
  {
    var (b, s1) :- GetU8(s);
    if b == 0 then Parsed(RepresentationCommitted, s1)
    else if b == 1 then Parsed(ApplicationAccepted, s1)
    else if b == 2 then Parsed(ApplicationDelivered, s1)
    else if b == 3 then Parsed(ApplicationRejected, s1)
    else Failed(Malformed("receipt status"))
  }

  const FAILURE_CODES: seq<FailureCode> :=
    [UnsupportedVersion, UnsupportedSchema, UnsupportedCodec, FailureCode.UnsupportedCriticalExtension, MalformedOperation, FailureCode.LimitExceeded,
     UnknownObject, FailureCode.MetadataConflict, RangeInvalid, IntegrityFailure, StorageFailure, PolicyRejected, CheckpointUnknown]

  function CodeTag(c: FailureCode): (b: byte)
    ensures b < |FAILURE_CODES| && FAILURE_CODES[b] == c
  {
    match c
    case UnsupportedVersion => 0 case UnsupportedSchema => 1 case UnsupportedCodec => 2 case UnsupportedCriticalExtension => 3
    case MalformedOperation => 4 case LimitExceeded => 5 case UnknownObject => 6 case MetadataConflict => 7 case RangeInvalid => 8
    case IntegrityFailure => 9 case StorageFailure => 10 case PolicyRejected => 11 case CheckpointUnknown => 12
  }

  function GetCode(s: Bytes): (r: Parsed<FailureCode>)
    ensures r.Parsed? ==> s == [CodeTag(r.value)] + r.rest
  {
    var (b, s1) :- GetU8(s);
    if b < |FAILURE_CODES| then Parsed(FAILURE_CODES[b], s1) else Failed(Malformed("failure code"))
  }

  lemma GotTags(c: SecurityClass, m: OfferMode, t: ReceiptStatus, f: FailureCode, tail: Bytes)
    ensures GetSecurity([SecurityTag(c)] + tail) == Parsed(c, tail)
    ensures GetMode([ModeTag(m)] + tail) == Parsed(m, tail)
    ensures GetStatus([StatusTag(t)] + tail) == Parsed(t, tail)
    ensures GetCode([CodeTag(f)] + tail) == Parsed(f, tail)
  {
    GotU8(SecurityTag(c), tail);
    GotU8(ModeTag(m), tail);
    GotU8(StatusTag(t), tail);
    GotU8(CodeTag(f), tail);
  }

  // ---- Cursors and collection entries ----

  function PutCursor(c: Cursor, tail: Bytes): Bytes {
    match c
    case DeltaCursor(sequence) => [0] + (BE64(sequence) + tail)
    case FullCursor(key) => [1] + (key.objectId + (BE32(key.partId) + (key.representationId + tail)))
  }

  function GetCursor(s: Bytes): (r: Parsed<Cursor>)
    ensures r.Parsed? ==> s == PutCursor(r.value, r.rest)
  {
    var (tag, s1) :- GetU8(s);
    if tag == 0 then
      var (sequence, s2) :- GetU64(s1);
      Parsed(DeltaCursor(sequence), s2)
    else if tag == 1 then
      var (objectId, s2) :- GetArray32(s1);
      var (partId, s3) :- GetU32(s2);
      var (representationId, s4) :- GetArray32(s3);
      Parsed(FullCursor(EntryKey(objectId, partId, representationId)), s4)
    else
      Failed(Malformed("cursor"))
  }

  lemma GotCursor(c: Cursor, tail: Bytes)
    ensures GetCursor(PutCursor(c, tail)) == Parsed(c, tail)
  {
    match c
    case DeltaCursor(sequence) =>
      GotU8(0, BE64(sequence) + tail);
      GotU64(sequence, tail);
    case FullCursor(key) =>
      GotU8(1, key.objectId + (BE32(key.partId) + (key.representationId + tail)));
      GotArray32(key.objectId, BE32(key.partId) + (key.representationId + tail));
      GotU32(key.partId, key.representationId + tail);
      GotArray32(key.representationId, tail);
  }

  /** The part of an entry that follows its codec parameters. */
  function PutLengths(d: Descriptor, tail: Bytes): Bytes {
    BE64(d.encodedLength) + PutOptionU64(d.decodedLength, d.contentDigest + PutOptionU64(d.usefulnessExpiry, tail))
  }

  function PutDescriptor(d: Descriptor, tail: Bytes): Bytes
    requires |d.codecParameters| < 0x1_0000
  {
    d.representationId + (d.schemaFingerprint + (BE32(d.codecId) + (BE32(d.codecRevision)
    + PutU16Octets(d.codecParameters, PutLengths(d, tail)))))
  }

  function PutEntry(e: Entry, tail: Bytes): Bytes
    requires |e.descriptor.codecParameters| < 0x1_0000
  {
    BE64(e.sequence) + (e.objectId + (BE32(e.partId) + PutDescriptor(e.descriptor, tail)))
  }

  /** The lengths, digest and expiry that complete a descriptor. */
  function GetLengths(d: Descriptor, s: Bytes): (r: Parsed<Descriptor>)
    ensures r.Parsed? ==>
              && r.value == d.(encodedLength := r.value.encodedLength, decodedLength := r.value.decodedLength,
                               contentDigest := r.value.contentDigest, usefulnessExpiry := r.value.usefulnessExpiry)
              && s == PutLengths(r.value, r.rest)
  {
    var (encodedLength, s1) :- GetU64(s);
    var (decodedLength, s2) :- GetOptionU64(s1);
    var (digest, s3) :- GetArray32(s2);
    var (expiry, s4) :- GetOptionU64(s3);
    Parsed(d.(encodedLength := encodedLength, decodedLength := decodedLength, contentDigest := digest, usefulnessExpiry := expiry), s4)
  }

  /** A descriptor of which only the identity fields are known. */
  function Identified(representationId: Octets32, schema: Octets32, codecId: u32, revision: u32, parameters: Bytes): Descriptor {
    Descriptor(representationId, schema, codecId, revision, parameters, 0, None, schema, None)
  }

  function GetDescriptor(s: Bytes): (r: Parsed<Descriptor>)
    ensures r.Parsed? ==> |r.value.codecParameters| <= MAX_CODEC_PARAMETER_OCTETS && s == PutDescriptor(r.value, r.rest)
  {
    var (representationId, s1) :- GetArray32(s);
    var (schema, s2) :- GetArray32(s1);
    var (codecId, s3) :- GetU32(s2);
    var (revision, s4) :- GetU32(s3);
    var (parameters, s5) :- GetU16Octets(MAX_CODEC_PARAMETER_OCTETS, s4);
    GetLengths(Identified(representationId, schema, codecId, revision, parameters), s5)
  }

  function GetEntry(s: Bytes): (r: Parsed<Entry>)
    ensures r.Parsed? ==> r.value.Valid() && s == PutEntry(r.value, r.rest)
  {
    var (sequence, s1) :- GetU64(s);
    var (objectId, s2) :- GetArray32(s1);
    var (partId, s3) :- GetU32(s2);
    var (descriptor, s4) :- GetDescriptor(s3);
    var entry := Entry(sequence, objectId, partId, descriptor);
    var valid := ValidateEntry(entry);
    if valid.Fail? then Failed(valid.error) else Parsed(entry, s4)
  }

  lemma GotLengths(partial: Descriptor, d: Descriptor, tail: Bytes)
    requires d == partial.(encodedLength := d.encodedLength, decodedLength := d.decodedLength,
                           contentDigest := d.contentDigest, usefulnessExpiry := d.usefulnessExpiry)
    ensures GetLengths(partial, PutLengths(d, tail)) == Parsed(d, tail)
  {
    var t := PutOptionU64(d.usefulnessExpiry, tail);
    GotU64(d.encodedLength, PutOptionU64(d.decodedLength, d.contentDigest + t));
    GotOptionU64(d.decodedLength, d.contentDigest + t);
    GotArray32(d.contentDigest, t);
    GotOptionU64(d.usefulnessExpiry, tail);
  }

  lemma GotDescriptor(d: Descriptor, tail: Bytes)
    requires d.Valid()
    ensures GetDescriptor(PutDescriptor(d, tail)) == Parsed(d, tail)
  {
    var t4 := PutU16Octets(d.codecParameters, PutLengths(d, tail));
    var t3 := BE32(d.codecRevision) + t4;
    var t2 := BE32(d.codecId) + t3;
    GotArray32(d.representationId, d.schemaFingerprint + t2);
    GotArray32(d.schemaFingerprint, t2);
    GotU32(d.codecId, t3);
    GotU32(d.codecRevision, t4);
    GotU16Octets(MAX_CODEC_PARAMETER_OCTETS, d.codecParameters, PutLengths(d, tail));
    GotLengths(Identified(d.representationId, d.schemaFingerprint, d.codecId, d.codecRevision, d.codecParameters), d, tail);
  }

  lemma GotEntry(e: Entry, tail: Bytes)
    requires e.Valid()
    ensures GetEntry(PutEntry(e, tail)) == Parsed(e, tail)
  {
    var t3 := PutDescriptor(e.descriptor, tail);
    var t2 := BE32(e.partId) + t3;
    GotU64(e.sequence, e.objectId + t2);
    GotArray32(e.objectId, t2);
    GotU32(e.partId, t3);
    GotDescriptor(e.descriptor, tail);
  }

  ghost predicate Writable(entries: seq<Entry>) {
    forall e | e in entries :: |e.descriptor.codecParameters| < 0x1_0000
  }

  function PutEntries(entries: seq<Entry>, tail: Bytes): Bytes
    requires Writable(entries)
  {
    if entries == [] then tail else PutEntry(entries[0], PutEntries(entries[1..], tail))
  }

  function GetEntries(n: nat, s: Bytes): (r: Parsed<seq<Entry>>)
    ensures r.Parsed? ==> |r.value| == n && Writable(r.value) && (forall e | e in r.value :: e.Valid()) && s == PutEntries(r.value, r.rest)
    decreases n
  {
    if n == 0 then
      Parsed([], s)
    else
      var (e, s1) :- GetEntry(s);
      var (es, s2) :- GetEntries(n - 1, s1);
      assert ([e] + es)[1..] == es;
      Parsed([e] + es, s2)
  }

  lemma GotFirst(entries: seq<Entry>, s: Bytes, s1: Bytes, s2: Bytes)
    requires entries != []
    requires GetEntry(s) == Parsed(entries[0], s1) && GetEntries(|entries| - 1, s1) == Parsed(entries[1..], s2)
    ensures GetEntries(|entries|, s) == Parsed(entries, s2)
  {
    hide GetEntry, PutEntry, PutEntries, ValidateEntry;
    assert [entries[0]] + entries[1..] == entries;
  }

  lemma {:induction false} GotEntries(entries: seq<Entry>, tail: Bytes)
    requires forall e | e in entries :: e.Valid()
    ensures Writable(entries)
    ensures GetEntries(|entries|, PutEntries(entries, tail)) == Parsed(entries, tail)
  {
    assert Writable(entries);
    if entries != [] {
      GotEntries(entries[1..], tail);
      var rest := PutEntries(entries[1..], tail);
      var s := PutEntry(entries[0], rest);
      GotEntry(entries[0], rest);
      GotFirst(entries, s, rest, tail);
    }
  }

  // ---- Sizes ----

  function CursorSize(c: Cursor): nat {
    match c
    case DeltaCursor(_) => 1 + 8
    case FullCursor(_) => 1 + 32 + 4 + 32
  }

  function EntrySize(e: Entry): nat {
    8 + 32 + 4 + 32 + 32 + 4 + 4 + 2 + |e.descriptor.codecParameters| + 8
    + 1 + (if e.descriptor.decodedLength.Some? then 8 else 0) + 32
    + 1 + (if e.descriptor.usefulnessExpiry.Some? then 8 else 0)
  }

  function EntriesSize(entries: seq<Entry>): nat {
    if entries == [] then 0 else EntrySize(entries[0]) + EntriesSize(entries[1..])
  }

  function TextSize(text: Option<Text>): nat {
    1 + if text.Some? then 2 + |text.value| else 0
  }

  lemma {:induction false} EntriesImageSize(entries: seq<Entry>, tail: Bytes)
    requires Writable(entries)
    ensures |PutEntries(entries, tail)| == EntriesSize(entries) + |tail|
  {
    if entries != [] {
      EntriesImageSize(entries[1..], tail);
      var rest := PutEntries(entries[1..], tail);
      assert |PutLengths(entries[0].descriptor, rest)|
          == 8 + 1 + (if entries[0].descriptor.decodedLength.Some? then 8 else 0) + 32
             + 1 + (if entries[0].descriptor.usefulnessExpiry.Some? then 8 else 0) + |rest|;
    }
  }
}
