/** The strict record reader: a position that advances over the octets, proved against the field images. */
module Readers {
  import opened Wrappers
  import opened Octets
  import opened Representation
  import opened Operations
  import opened Wire
  import opened B1Fields
  import opened B1Codec
  import opened B1Record

  /** Items already read, in front of those still to come. */
  function Behind<T>(xs: seq<T>, p: Parsed<seq<T>>): Parsed<seq<T>> {
    if p.Parsed? then Parsed(xs + p.value, p.rest) else p
  }

  lemma BehindNothing<T>(p: Parsed<seq<T>>)
    ensures Behind([], p) == p
  {
    if p.Parsed? {
      assert [] + p.value == p.value;
    }
  }

  /** Reading one more item moves it behind. */
  lemma BehindOneMore<T>(get: Bytes -> Parsed<T>, n: nat, xs: seq<T>, s: Bytes)
    requires n > 0
    ensures Behind(xs, GetMany(get, n, s)) ==
              var x := get(s); if x.Failed? then Failed(x.error) else Behind(xs + [x.value], GetMany(get, n - 1, x.rest))
  {
    var x := get(s);
    if x.Parsed? && GetMany(get, n - 1, x.rest).Parsed? {
      var more := GetMany(get, n - 1, x.rest).value;
      assert xs + ([x.value] + more) == xs + [x.value] + more;
    }
  }

  lemma BehindOneEntry(n: nat, xs: seq<Entry>, s: Bytes)
    requires n > 0
    ensures Behind(xs, GetEntries(n, s)) ==
              var x := GetEntry(s); if x.Failed? then Failed(x.error) else Behind(xs + [x.value], GetEntries(n - 1, x.rest))
  {
    hide GetEntry, PutEntries, PutEntry, ValidateEntry;
    var x := GetEntry(s);
    if x.Parsed? && GetEntries(n - 1, x.rest).Parsed? {
      var more := GetEntries(n - 1, x.rest).value;
      assert xs + ([x.value] + more) == xs + [x.value] + more;
    }
  }

  /** Extensions already read and kept, in front of those of the others that will be kept. */
  function KeptBehind(supported: set<u32>, kept: seq<Extension>, p: Parsed<seq<Extension>>): Parsed<seq<Extension>> {
    if p.Parsed? then Parsed(kept + Kept(supported, p.value), p.rest) else p
  }

  /** One more extension is kept, passed over, or stops the reader. */
  lemma KeptOneMore(supported: set<u32>, n: nat, seen: set<u32>, kept: seq<Extension>, s: Bytes)
    requires n > 0
    ensures KeptBehind(supported, kept, GetExtensions(supported, n, seen, s)) ==
              var x := GetExtension(seen, s);
              if x.Failed? then Failed(x.error)
              else if x.value.id !in supported && x.value.critical then Failed(Error.UnsupportedCriticalExtension(x.value.id))
              else KeptBehind(supported, if x.value.id in supported then kept + [x.value] else kept,
                              GetExtensions(supported, n - 1, seen + {x.value.id}, x.rest))
  {
    hide GetExtension, PutExtensions, PutExtension;
    var x := GetExtension(seen, s);
    if x.Parsed? && (x.value.id in supported || !x.value.critical) && GetExtensions(supported, n - 1, seen + {x.value.id}, x.rest).Parsed? {
      var more := GetExtensions(supported, n - 1, seen + {x.value.id}, x.rest).value;
      assert ([x.value] + more)[1..] == more;
      assert kept + ([x.value] + Kept(supported, more)) == kept + [x.value] + Kept(supported, more);
      assert [] + Kept(supported, more) == Kept(supported, more);
    }
  }

  class Reader {
    const bytes: Bytes
    var position: nat

    constructor (bytes: Bytes)
      ensures this.bytes == bytes && Valid() && Rest() == bytes
    {
      this.bytes, position := bytes, 0;
    }

    predicate Valid()
      reads this
    {
      position <= |bytes|
    }

    /** The octets not read yet. */
    function Rest(): Bytes
      requires Valid()
      reads this
    {
      bytes[position..]
    }

    predicate IsEmpty()
      reads this
      ensures Valid() ==> (IsEmpty() <==> Rest() == [])
    {
      position == |bytes|
    }

    /** Read what the specification reads off the octets left, or failed with its error. */
    twostate predicate Did<T(!new)>(new p: Parsed<T>, new r: Result<T, Error>)
      reads this
    {
      && Valid()
      && match p
         case Parsed(value, rest) => r == Ok(value) && Rest() == rest
         case Failed(error) => r == Err(error)
    }

    // ---- Fixed-width fields ----

    method Take(count: nat) returns (r: Result<Bytes, Error>)
      requires Valid()
      modifies this
      ensures Did(Wire.Take(count, old(Rest())), r)
    {
      var end := position + count;
      if end > |bytes| {
        return Err(Truncated);
      }
      r := Ok(bytes[position..end]);
      assert bytes[position..][..count] == bytes[position..end];
      position := end;
    }

    method Array32() returns (r: Result<Octets32, Error>)
      requires Valid()
      modifies this
      ensures Did(GetArray32(old(Rest())), r)
    {
      var b :- Take(32);
      r := Ok(b);
    }

    method Array16() returns (r: Result<Octets16, Error>)
      requires Valid()
      modifies this
      ensures Did(GetArray16(old(Rest())), r)
    {
      var b :- Take(16);
      r := Ok(b);
    }

    method U8() returns (r: Result<byte, Error>)
      requires Valid()
      modifies this
      ensures Did(GetU8(old(Rest())), r)
    {
      var b :- Take(1);
      r := Ok(b[0]);
    }

    method Boolean() returns (r: Result<bool, Error>)
      requires Valid()
      modifies this
      ensures Did(GetBool(old(Rest())), r)
    {
      var b :- U8();
      r := if b == 0 then Ok(false) else if b == 1 then Ok(true) else Err(NonCanonical("boolean"));
    }

    method U16() returns (r: Result<u16, Error>)
      requires Valid()
      modifies this
      ensures Did(GetU16(old(Rest())), r)
    {
      var b :- Take(2);
      r := Ok(FromBE16(b));
    }

    method U32() returns (r: Result<u32, Error>)
      requires Valid()
      modifies this
      ensures Did(GetU32(old(Rest())), r)
    {
      var b :- Take(4);
      r := Ok(FromBE32(b));
    }

    method U64() returns (r: Result<u64, Error>)
      requires Valid()
      modifies this
      ensures Did(GetU64(old(Rest())), r)
    {
      var b :- Take(8);
      r := Ok(FromBE64(b));
    }

    // ---- Counted and optional fields ----

    method BoundedCount(maximum: nat) returns (r: Result<byte, Error>)
      requires Valid()
      modifies this
      ensures Did(GetCount(maximum, old(Rest())), r)
    {
      var count :- U8();
      r := if count > maximum then Err(Error.LimitExceeded("count")) else Ok(count);
    }

    method U32Length(maximum: nat) returns (r: Result<u32, Error>)
      requires Valid()
      modifies this
      ensures Did(GetU32Length(maximum, old(Rest())), r)
    {
      var length :- U32();
      r := if length > maximum || length > |bytes| - position then Err(Error.LimitExceeded("length")) else Ok(length);
    }

    method U16Octets(maximum: nat) returns (r: Result<Bytes, Error>)
      requires Valid() && maximum < 0x1_0000
      modifies this
      ensures Did(GetU16Octets(maximum, old(Rest())), r)
    {
      var length :- U16();
      if length > maximum {
        return Err(Error.LimitExceeded("octets"));
      }
      r := Take(length);
    }

    method U8Octets(maximum: nat) returns (r: Result<Bytes, Error>)
      requires Valid() && maximum < 0x100
      modifies this
      ensures Did(GetU8Octets(maximum, old(Rest())), r)
    {
      var length :- BoundedCount(maximum);
      r := Take(length);
    }

    method OptionalText(maximum: nat) returns (r: Result<Option<Text>, Error>)
      requires Valid() && maximum < 0x1_0000
      modifies this
      ensures Did(GetText(maximum, old(Rest())), r)
    {
      var present :- Boolean();
      if !present {
        return Ok(None);
      }
      var length :- U16();
      if length > maximum {
        return Err(Error.LimitExceeded("text"));
      }
      var text :- Take(length);
      if !ValidUtf8(text) {
        return Err(Operations.Malformed("UTF-8"));
      }
      r := if HasControl(text) then Err(Error.LimitExceeded("text")) else Ok(Some(text));
    }

    method OptionalU64() returns (r: Result<Option<u64>, Error>)
      requires Valid()
      modifies this
      ensures Did(GetOptionU64(old(Rest())), r)
    {
      var present :- Boolean();
      if !present {
        return Ok(None);
      }
      var n :- U64();
      r := Ok(Some(n));
    }

    method OptionalArray() returns (r: Result<Option<Octets32>, Error>)
      requires Valid()
      modifies this
      ensures Did(GetOptionArray(old(Rest())), r)
    {
      var present :- Boolean();
      if !present {
        return Ok(None);
      }
      var a :- Array32();
      r := Ok(Some(a));
    }

    // ---- Structured fields ----

    method Mode() returns (r: Result<OfferMode, Error>)
      requires Valid()
      modifies this
      ensures Did(GetMode(old(Rest())), r)
    {
      var b :- U8();
      r := if b == 0 then Ok(Delta) else if b == 1 then Ok(Full) else Err(Operations.Malformed("offer mode"));
    }

    method DecodeCursor() returns (r: Result<Cursor, Error>)
      requires Valid()
      modifies this
      ensures Did(GetCursor(old(Rest())), r)
    {
      var tag :- U8();
      if tag == 0 {
        var sequence :- U64();
        return Ok(DeltaCursor(sequence));
      }
      if tag != 1 {
        return Err(Operations.Malformed("cursor"));
      }
      var objectId :- Array32();
      var partId :- U32();
      var representationId :- Array32();
      r := Ok(FullCursor(EntryKey(objectId, partId, representationId)));
    }

    method DecodeLengths(d: Descriptor) returns (r: Result<Descriptor, Error>)
      requires Valid()
      modifies this
      ensures Did(GetLengths(d, old(Rest())), r)
    {
      var encodedLength :- U64();
      var decodedLength :- OptionalU64();
      var digest :- Array32();
      var expiry :- OptionalU64();
      r := Ok(d.(encodedLength := encodedLength, decodedLength := decodedLength, contentDigest := digest, usefulnessExpiry := expiry));
    }

    method DecodeRepresentation() returns (r: Result<Descriptor, Error>)
      requires Valid()
      modifies this
      ensures Did(GetDescriptor(old(Rest())), r)
    {
      var representationId :- Array32();
      var schema :- Array32();
      var codecId :- U32();
      var revision :- U32();
      var parameters :- U16Octets(MAX_CODEC_PARAMETER_OCTETS);
      r := DecodeLengths(Identified(representationId, schema, codecId, revision, parameters));
    }

    method DecodeDescriptor() returns (r: Result<Entry, Error>)
      requires Valid()
      modifies this
      ensures Did(GetEntry(old(Rest())), r)
    {
      var sequence :- U64();
      var objectId :- Array32();
      var partId :- U32();
      var descriptor :- DecodeRepresentation();
      var entry := Entry(sequence, objectId, partId, descriptor);
      var valid := ValidateEntry(entry);
      r := if valid.Fail? then Err(valid.error) else Ok(entry);
    }

    method DecodeDescriptors(count: nat) returns (r: Result<seq<Entry>, Error>)
      requires Valid()
      modifies this
      ensures Did(GetEntries(count, old(Rest())), r)
    {
      hide GetEntry, PutEntries, PutEntry, ValidateEntry;
      var xs: seq<Entry> := [];
      BehindNothing(GetEntries(count, Rest()));
      for i := 0 to count
        invariant Valid() && GetEntries(count, old(Rest())) == Behind(xs, GetEntries(count - i, Rest()))
      {
        BehindOneEntry(count - i, xs, Rest());
        var x :- DecodeDescriptor();
        xs := xs + [x];
      }
      assert xs + [] == xs;
      r := Ok(xs);
    }

    method Generation() returns (r: Result<Generation, Error>)
      requires Valid()
      modifies this
      ensures Did(GetGeneration(old(Rest())), r)
    {
      var major :- U16();
      var minor :- U16();
      r := Ok(Operations.Generation.Generation(major, minor));
    }

    method Generations(count: nat) returns (r: Result<seq<Generation>, Error>)
      requires Valid()
      modifies this
      ensures Did(GetMany(GetGeneration, count, old(Rest())), r)
    {
      hide GetGeneration, PutGeneration;
      var xs: seq<Generation> := [];
      BehindNothing(GetMany(GetGeneration, count, Rest()));
      for i := 0 to count
        invariant Valid() && GetMany(GetGeneration, count, old(Rest())) == Behind(xs, GetMany(GetGeneration, count - i, Rest()))
      {
        BehindOneMore(GetGeneration, count - i, xs, Rest());
        var x :- Generation();
        xs := xs + [x];
      }
      assert xs + [] == xs;
      r := Ok(xs);
    }

    method Schemas(count: nat) returns (r: Result<seq<Octets32>, Error>)
      requires Valid()
      modifies this
      ensures Did(GetMany(GetArray32, count, old(Rest())), r)
    {
      hide GetArray32, PutSchema;
      var xs: seq<Octets32> := [];
      BehindNothing(GetMany(GetArray32, count, Rest()));
      for i := 0 to count
        invariant Valid() && GetMany(GetArray32, count, old(Rest())) == Behind(xs, GetMany(GetArray32, count - i, Rest()))
      {
        BehindOneMore(GetArray32, count - i, xs, Rest());
        var x :- Array32();
        xs := xs + [x];
      }
      assert xs + [] == xs;
      r := Ok(xs);
    }

    method Preference() returns (r: Result<CodecPreference, Error>)
      requires Valid()
      modifies this
      ensures Did(GetPreference(old(Rest())), r)
    {
      var codecId :- U32();
      var revision :- U32();
      var schema :- Array32();
      r := Ok(CodecPreference(codecId, revision, schema));
    }

    method Preferences(count: nat) returns (r: Result<seq<CodecPreference>, Error>)
      requires Valid()
      modifies this
      ensures Did(GetMany(GetPreference, count, old(Rest())), r)
    {
      hide GetPreference, PutPreference;
      var xs: seq<CodecPreference> := [];
      BehindNothing(GetMany(GetPreference, count, Rest()));
      for i := 0 to count
        invariant Valid() && GetMany(GetPreference, count, old(Rest())) == Behind(xs, GetMany(GetPreference, count - i, Rest()))
      {
        BehindOneMore(GetPreference, count - i, xs, Rest());
        var x :- Preference();
        xs := xs + [x];
      }
      assert xs + [] == xs;
      r := Ok(xs);
    }

    method Declaration() returns (r: Result<ExtensionDeclaration, Error>)
      requires Valid()
      modifies this
      ensures Did(GetDeclaration(old(Rest())), r)
    {
      var id :- U32();
      var critical :- Boolean();
      r := Ok(ExtensionDeclaration(id, critical));
    }

    method Declarations(count: nat) returns (r: Result<seq<ExtensionDeclaration>, Error>)
      requires Valid()
      modifies this
      ensures Did(GetMany(GetDeclaration, count, old(Rest())), r)
    {
      hide GetDeclaration, PutDeclaration;
      var xs: seq<ExtensionDeclaration> := [];
      BehindNothing(GetMany(GetDeclaration, count, Rest()));
      for i := 0 to count
        invariant Valid() && GetMany(GetDeclaration, count, old(Rest())) == Behind(xs, GetMany(GetDeclaration, count - i, Rest()))
      {
        BehindOneMore(GetDeclaration, count - i, xs, Rest());
        var x :- Declaration();
        xs := xs + [x];
      }
      assert xs + [] == xs;
      r := Ok(xs);
    }

    method DecodeSelection() returns (r: Result<Selection, Error>)
      requires Valid()
      modifies this
      ensures Did(GetSelection(old(Rest())), r)
    {
      var id :- Array32();
      var offset :- U64();
      var desired :- U64();
      r := Ok(Selection(id, offset, desired));
    }

    method Selections(count: nat) returns (r: Result<seq<Selection>, Error>)
      requires Valid()
      modifies this
      ensures Did(GetMany(GetSelection, count, old(Rest())), r)
    {
      hide GetSelection, PutSelection;
      var xs: seq<Selection> := [];
      BehindNothing(GetMany(GetSelection, count, Rest()));
      for i := 0 to count
        invariant Valid() && GetMany(GetSelection, count, old(Rest())) == Behind(xs, GetMany(GetSelection, count - i, Rest()))
      {
        BehindOneMore(GetSelection, count - i, xs, Rest());
        var x :- DecodeSelection();
        xs := xs + [x];
      }
      assert xs + [] == xs;
      r := Ok(xs);
    }

    method Security() returns (r: Result<SecurityClass, Error>)
      requires Valid()
      modifies this
      ensures Did(GetSecurity(old(Rest())), r)
    {
      var b :- U8();
      r := if b == 0 then Ok(Public) else if b == 1 then Ok(AuthenticatedPublic) else if b == 2 then Ok(Confidential)
           else Err(Operations.Malformed("security_class"));
    }

    method Status() returns (r: Result<ReceiptStatus, Error>)
      requires Valid()
      modifies this
      ensures Did(GetStatus(old(Rest())), r)
    {
      var b :- U8();
      r := if b == 0 then Ok(RepresentationCommitted) else if b == 1 then Ok(ApplicationAccepted)
           else if b == 2 then Ok(ApplicationDelivered) else if b == 3 then Ok(ApplicationRejected)
           else Err(Operations.Malformed("receipt status"));
    }

    method Code() returns (r: Result<FailureCode, Error>)
      requires Valid()
      modifies this
      ensures Did(GetCode(old(Rest())), r)
    {
      var b :- U8();
      r := if b < |FAILURE_CODES| then Ok(FAILURE_CODES[b]) else Err(Operations.Malformed("failure code"));
    }

    // ---- Operation payloads ----

    method DecodeLimits(generations: seq<Generation>, schemas: seq<Octets32>, codecs: seq<CodecPreference>) returns (r: Result<Capabilities, Error>)
      requires Valid()
      modifies this
      ensures Did(GetLimits(generations, schemas, codecs, old(Rest())), r)
    {
      hide GetMany, PutMany, GetDeclaration, PutDeclaration, PutLimits;
      var maxOperation :- U32();
      var maxData :- U64();
      var levels :- U8();
      var security :- Security();
      var count :- BoundedCount(MAX_EXTENSIONS);
      var extensions :- Declarations(count);
      r := Ok(Capabilities(generations, schemas, codecs, maxOperation, maxData, levels, security, extensions));
    }

    method DecodeCapabilities() returns (r: Result<Capabilities, Error>)
      requires Valid()
      modifies this
      ensures Did(GetCapabilities(old(Rest())), r)
    {
      hide GetMany, PutMany, GetLimits, PutCapabilities;
      var generationCount :- BoundedCount(MAX_CAPABILITY_PROTOCOLS);
      var generations :- Generations(generationCount);
      var schemaCount :- BoundedCount(MAX_CAPABILITY_SCHEMAS);
      var schemas :- Schemas(schemaCount);
      var codecCount :- BoundedCount(MAX_CAPABILITY_CODECS);
      var codecs :- Preferences(codecCount);
      r := DecodeLimits(generations, schemas, codecs);
    }

    method DecodeSummary() returns (r: Result<Summary, Error>)
      requires Valid()
      modifies this
      ensures Did(GetSummary(old(Rest())), r)
    {
      var id :- Array32();
      var generation :- U64();
      var count :- U64();
      var digest :- Array32();
      r := Ok(Summary(id, generation, count, digest));
    }

    method DecodeOffer() returns (r: Result<Offer, Error>)
      requires Valid()
      modifies this
      ensures Did(GetOffer(old(Rest())), r)
    {
      hide GetEntries, PutEntries, GetCursor;
      var id :- Array32();
      var mode :- Mode();
      var base :- U64();
      var target :- U64();
      var first :- DecodeCursor();
      var last :- DecodeCursor();
      var count :- BoundedCount(MAX_OFFER_DESCRIPTORS);
      var descriptors :- DecodeDescriptors(count);
      var more :- Boolean();
      r := Ok(Offer(id, mode, base, target, first, last, descriptors, more));
    }

    method DecodePage() returns (r: Result<InventoryPageRequest, Error>)
      requires Valid()
      modifies this
      ensures Did(GetPage(old(Rest())), r)
    {
      var id :- Array32();
      var target :- U64();
      var mode :- Mode();
      var cursor :- DecodeCursor();
      var limit :- U8();
      r := Ok(InventoryPageRequest(id, target, mode, cursor, limit));
    }

    method DecodeDataRequest() returns (r: Result<DataRequest, Error>)
      requires Valid()
      modifies this
      ensures Did(GetDataRequest(old(Rest())), r)
    {
      hide GetMany, PutMany, GetSelection, PutSelection, PutDataRequest;
      var id :- Array16();
      var total :- U64();
      var forward :- U64();
      var backward :- U64();
      var count :- BoundedCount(MAX_REQUEST_SELECTIONS);
      var selections :- Selections(count);
      r := Ok(DataRequest(id, total, forward, backward, selections));
    }

    method DecodeRequest() returns (r: Result<Request, Error>)
      requires Valid()
      modifies this
      ensures Did(GetRequest(old(Rest())), r)
    {
      hide GetPage, GetDataRequest, PutOperation;
      var variant :- U8();
      if variant == 0 {
        var page :- DecodePage();
        return Ok(InventoryPage(page));
      }
      if variant != 1 {
        return Err(Operations.Malformed("request variant"));
      }
      var data :- DecodeDataRequest();
      r := Ok(RepresentationData(data));
    }

    method DecodeData() returns (r: Result<Data, Error>)
      requires Valid()
      modifies this
      ensures Did(GetData(old(Rest())), r)
    {
      var id :- Array32();
      var offset :- U64();
      var length :- U32Length(MAX_RECORD_OCTETS);
      var payload := Take(length);
      r := Ok(Data(id, offset, payload.value));
    }

    method DecodeReceipt() returns (r: Result<Receipt, Error>)
      requires Valid()
      modifies this
      ensures Did(GetReceipt(old(Rest())), r)
    {
      var subject :- Array32();
      var status :- Status();
      var digest :- OptionalArray();
      var id :- Array16();
      var reason :- OptionalText(MAX_FAILURE_DETAIL_OCTETS);
      r := Ok(Receipt(subject, status, digest, id, reason));
    }

    method DecodeFailure() returns (r: Result<Failure, Error>)
      requires Valid()
      modifies this
      ensures Did(GetFailure(old(Rest())), r)
    {
      var code :- Code();
      var scope :- U8Octets(MAX_FAILURE_SCOPE_OCTETS);
      var retryable :- Boolean();
      var detail :- OptionalText(MAX_FAILURE_DETAIL_OCTETS);
      r := Ok(Failure(code, scope, retryable, detail));
    }

    method DecodePayload(tag: byte) returns (r: Result<Operation, Error>)
      requires Valid()
      modifies this
      ensures Did(GetOperation(tag, old(Rest())), r)
    {
      hide GetCapabilities, GetSummary, GetOffer, GetRequest, GetData, GetReceipt, GetFailure, PutOperation, Fits;
      match tag {
        case 1 =>
          var x :- DecodeCapabilities();
          r := Ok(CapabilitiesOp(x));
        case 2 =>
          var x :- DecodeSummary();
          r := Ok(SummaryOp(x));
        case 3 =>
          var x :- DecodeOffer();
          r := Ok(OfferOp(x));
        case 4 =>
          var x :- DecodeRequest();
          r := Ok(RequestOp(x));
        case 5 =>
          var x :- DecodeData();
          r := Ok(DataOp(x));
        case 6 =>
          var x :- DecodeReceipt();
          r := Ok(ReceiptOp(x));
        case 7 =>
          var x :- DecodeFailure();
          r := Ok(FailureOp(x));
        case _ =>
          r := Err(UnknownOperation(tag));
      }
    }

    // ---- Extensions ----

    method DecodeExtension(seen: set<u32>) returns (r: Result<Extension, Error>)
      requires Valid()
      modifies this
      ensures Did(GetExtension(seen, old(Rest())), r)
    {
      var id :- U32();
      var critical :- Boolean();
      var length :- U16();
      if length > MAX_EXTENSION_VALUE_OCTETS || id in seen {
        return Err(Error.LimitExceeded("extension"));
      }
      var value :- Take(length);
      r := Ok(Extension(id, critical, value));
    }

    method DecodeExtensions(supported: set<u32>, count: nat) returns (r: Result<seq<Extension>, Error>)
      requires Valid()
      modifies this
      ensures Did(KeptBehind(supported, [], GetExtensions(supported, count, {}, old(Rest()))), r)
    {
      hide GetExtension, PutExtensions, PutExtension;
      var kept: seq<Extension>, seen: set<u32> := [], {};
      for i := 0 to count
        invariant Valid()
        invariant KeptBehind(supported, [], GetExtensions(supported, count, {}, old(Rest())))
               == KeptBehind(supported, kept, GetExtensions(supported, count - i, seen, Rest()))
      {
        KeptOneMore(supported, count - i, seen, kept, Rest());
        var x :- DecodeExtension(seen);
        seen := seen + {x.id};
        if x.id in supported {
          kept := kept + [x];
        } else if x.critical {
          return Err(Error.UnsupportedCriticalExtension(x.id));
        }
      }
      assert kept + [] == kept;
      r := Ok(kept);
    }
  }

  /** Strict decoding of one complete record. */
  method DecodeRecord(bytes: Bytes, supported: set<u32>) returns (r: Result<Record, Error>)
    ensures r == Decode(bytes, supported)
  {
    hide GetOperation, GetExtensions, Validate;
    if |bytes| < ENVELOPE_OCTETS {
      return Err(Truncated);
    }
    if |bytes| > MAX_RECORD_OCTETS {
      return Err(Error.LimitExceeded("operation size"));
    }
    if bytes[..2] != MAGIC {
      return Err(InvalidMagic);
    }
    if FromBE32(bytes[3..7]) != |bytes| - ENVELOPE_OCTETS {
      return Err(Operations.Malformed("envelope length"));
    }
    var reader := new Reader(bytes[ENVELOPE_OCTETS..]);
    var operation :- reader.DecodePayload(bytes[2]);
    var count :- reader.BoundedCount(MAX_EXTENSIONS);
    ghost var all := GetExtensions(supported, count, {}, reader.Rest());
    assert all.Parsed? ==> [] + Kept(supported, all.value) == Kept(supported, all.value);
    var extensions :- reader.DecodeExtensions(supported, count);
    if !reader.IsEmpty() {
      return Err(TrailingBytes);
    }
    var valid := Validate(operation);
    r := if valid.Fail? then Err(valid.error) else Ok(Record(operation, extensions));
  }
}
