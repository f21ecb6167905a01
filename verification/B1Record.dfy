/** Complete B1 records: exact size, encoding, strict decoding, and the bijection between them. */
module B1Record {
  import opened Wrappers
  import opened Octets
  import opened Representation
  import opened Operations
  import opened Wire
  import opened B1Fields
  import opened B1Codec

  // ---- Exact size ----

  function OperationSize(op: Operation): nat {
    match op
    case CapabilitiesOp(c) =>
      1 + |c.generations| * 4 + 1 + |c.schemas| * 32 + 1 + |c.codecs| * 40 + 4 + 8 + 1 + 1 + 1 + |c.extensions| * 5
    case SummaryOp(_) => 32 + 8 + 8 + 32
    case OfferOp(o) => 32 + 1 + 8 + 8 + CursorSize(o.firstCursor) + CursorSize(o.lastCursor) + 1 + EntriesSize(o.descriptors) + 1
    case RequestOp(InventoryPage(p)) => 1 + 32 + 8 + 1 + CursorSize(p.committedCursor) + 1
    case RequestOp(RepresentationData(q)) => 1 + 16 + 8 + 8 + 8 + 1 + |q.selections| * 48
    case DataOp(d) => 32 + 8 + 4 + |d.payload|
    case ReceiptOp(x) => 32 + 1 + 1 + (if x.verifiedDigest.Some? then 32 else 0) + 16 + TextSize(x.reason)
    case FailureOp(x) => 1 + 1 + |x.scope| + 1 + TextSize(x.detail)
  }

  function ExtensionsSize(extensions: seq<Extension>): nat {
    if extensions == [] then 0 else 4 + 1 + 2 + |extensions[0].value| + ExtensionsSize(extensions[1..])
  }

  /** The size a record will have, or the error that keeps it from being encoded. */
  function ExactSize(r: Record): Result<nat, Error> {
    var extensions := ValidateExtensions(r.extensions);
    var operation := Validate(r.operation);
    var size := ENVELOPE_OCTETS + OperationSize(r.operation) + 1 + ExtensionsSize(r.extensions);
    if extensions.Fail? then Err(extensions.error)
    else if operation.Fail? then Err(operation.error)
    else if size > MAX_RECORD_OCTETS then Err(Error.LimitExceeded("operation size"))
    else Ok(size)
  }

  // ---- Extensions ----

  ghost predicate WritableExtensions(extensions: seq<Extension>) {
    forall e | e in extensions :: |e.value| <= MAX_EXTENSION_VALUE_OCTETS
  }

  function PutExtension(e: Extension, tail: Bytes): Bytes
    requires |e.value| <= MAX_EXTENSION_VALUE_OCTETS
  {
    BE32(e.id) + PutBool(e.critical, PutU16Octets(e.value, tail))
  }

  function PutExtensions(extensions: seq<Extension>, tail: Bytes): Bytes
    requires WritableExtensions(extensions)
  {
    if extensions == [] then tail else PutExtension(extensions[0], PutExtensions(extensions[1..], tail))
  }

  /** One extension field, refused when too long or when its identifier was already seen. */
  function GetExtension(seen: set<u32>, s: Bytes): (r: Parsed<Extension>)
    ensures r.Parsed? ==>
              && r.value.id !in seen && |r.value.value| <= MAX_EXTENSION_VALUE_OCTETS
              && s == PutExtension(r.value, r.rest)
  {
    var (id, s1) :- GetU32(s);
    var (critical, s2) :- GetBool(s1);
    var (n, s3) :- GetU16(s2);
    if n > MAX_EXTENSION_VALUE_OCTETS || id in seen then
      Failed(Error.LimitExceeded("extension"))
    else
      var (value, s4) :- Take(n, s3);
      Parsed(Extension(id, critical, value), s4)
  }

  /** What a decoder that knows `supported` is willing to pass over. */
  ghost predicate Tolerable(supported: set<u32>, extensions: seq<Extension>) {
    forall e | e in extensions :: e.id in supported || !e.critical
  }

  /** What accepted extension fields are, beyond those in `seen`. */
  ghost predicate Accepted(supported: set<u32>, seen: set<u32>, es: seq<Extension>) {
    && WritableExtensions(es) && DistinctExtensions(es) && Tolerable(supported, es)
    && forall e | e in es :: e.id !in seen
  }

  lemma AcceptedCons(supported: set<u32>, seen: set<u32>, e: Extension, es: seq<Extension>)
    requires Accepted(supported, seen + {e.id}, es)
    requires e.id !in seen && |e.value| <= MAX_EXTENSION_VALUE_OCTETS && (e.id in supported || !e.critical)
    ensures Accepted(supported, seen, [e] + es)
    ensures forall tail :: PutExtensions([e] + es, tail) == PutExtension(e, PutExtensions(es, tail))
  {
    var all := [e] + es;
    assert all[1..] == es;
    forall i, j | 0 <= i < j < |all|
      ensures all[i].id != all[j].id
    {
      assert all[j] == es[j - 1] && es[j - 1] in es;
      if i > 0 {
        assert all[i] == es[i - 1];
      }
    }
  }

  /** All extension fields; an unknown critical one stops the decoder where it stands. */
  function GetExtensions(supported: set<u32>, n: nat, seen: set<u32>, s: Bytes): (r: Parsed<seq<Extension>>)
    ensures r.Parsed? ==> |r.value| == n && Accepted(supported, seen, r.value) && s == PutExtensions(r.value, r.rest)
    decreases n
  {
    if n == 0 then
      Parsed([], s)
    else
      var (e, s1) :- GetExtension(seen, s);
      if e.id !in supported && e.critical then
        Failed(Error.UnsupportedCriticalExtension(e.id))
      else
        var (es, s2) :- GetExtensions(supported, n - 1, seen + {e.id}, s1);
        AcceptedCons(supported, seen, e, es);
        Parsed([e] + es, s2)
  }

  /** The extensions a decoder that knows `supported` keeps. */
  function Kept(supported: set<u32>, extensions: seq<Extension>): seq<Extension> {
    if extensions == [] then []
    else (if extensions[0].id in supported then [extensions[0]] else []) + Kept(supported, extensions[1..])
  }

  lemma {:induction false} KeptAll(supported: set<u32>, extensions: seq<Extension>)
    ensures Kept(supported, extensions) == extensions <==> forall e | e in extensions :: e.id in supported
    ensures |Kept(supported, extensions)| <= |extensions|
  {
    if extensions != [] {
      KeptAll(supported, extensions[1..]);
      assert extensions == [extensions[0]] + extensions[1..];
    }
  }

  // ---- Encoding and decoding ----

  lemma ValidFits(op: Operation)
    requires Validate(op).Pass?
    ensures Fits(op)
  {
    if op.OfferOp? {
      ValidOfferMeans(op.offer);
    }
  }

  /** Envelope, operation and extension fields of a record whose size is known. */
  function Image(tag: byte, length: u32, content: Bytes): Bytes {
    MAGIC + ([tag] + (BE32(length) + content))
  }

  function Content(r: Record): Bytes
    requires Fits(r.operation) && WritableExtensions(r.extensions) && |r.extensions| < 0x100
  {
    PutOperation(r.operation, [|r.extensions|] + PutExtensions(r.extensions, []))
  }

  function Encode(r: Record): Result<Bytes, Error> {
    var size :- ExactSize(r);
    ValidFits(r.operation);
    Ok(Image(Tag(r.operation), size - ENVELOPE_OCTETS, Content(r)))
  }

  /** The content of an envelope with the given tag. */
  function DecodeContent(tag: byte, content: Bytes, supported: set<u32>): Result<Record, Error> {
    var operation := GetOperation(tag, content);
    if operation.Failed? then Err(operation.error) else
    var count := GetCount(MAX_EXTENSIONS, operation.rest);
    if count.Failed? then Err(count.error) else
    var extensions := GetExtensions(supported, count.value, {}, count.rest);
    if extensions.Failed? then Err(extensions.error) else
    if extensions.rest != [] then Err(TrailingBytes) else
    var valid := Validate(operation.value);
    if valid.Fail? then Err(valid.error) else
    Ok(Record(operation.value, Kept(supported, extensions.value)))
  }

  function Decode(bytes: Bytes, supported: set<u32>): Result<Record, Error> {
    if |bytes| < ENVELOPE_OCTETS then Err(Truncated)
    else if |bytes| > MAX_RECORD_OCTETS then Err(Error.LimitExceeded("operation size"))
    else if bytes[..2] != MAGIC then Err(InvalidMagic)
    else if FromBE32(bytes[3..7]) != |bytes| - ENVELOPE_OCTETS then Err(Malformed("envelope length"))
    else DecodeContent(bytes[2], bytes[7..], supported)
  }

  // ---- Emitted length ----

  lemma {:induction false} ExtensionsImageSize(extensions: seq<Extension>)
    requires WritableExtensions(extensions)
    ensures |PutExtensions(extensions, [])| == ExtensionsSize(extensions)
  {
    if extensions != [] {
      ExtensionsImageSize(extensions[1..]);
    }
  }

  lemma CapabilitiesImageSize(c: Capabilities, tail: Bytes)
    requires Counted(c)
    ensures |PutCapabilities(c, tail)| == OperationSize(CapabilitiesOp(c)) + |tail|
  {
    GenerationsRoundTrip();
    SchemasRoundTrip();
    PreferencesRoundTrip();
    DeclarationsRoundTrip();
    ManySize(PutDeclaration, 5, c.extensions, tail);
    var t3 := PutLimits(c, tail);
    ManySize(PutPreference, 40, c.codecs, t3);
    var t2 := [|c.codecs| as byte] + PutMany(PutPreference, c.codecs, t3);
    ManySize(PutSchema, 32, c.schemas, t2);
    ManySize(PutGeneration, 4, c.generations, [|c.schemas| as byte] + PutMany(PutSchema, c.schemas, t2));
  }

  lemma OfferImageSize(o: Offer, tail: Bytes)
    requires Fits(OfferOp(o))
    ensures |PutOffer(o, tail)| == OperationSize(OfferOp(o)) + |tail|
  {
    var t := PutEntries(o.descriptors, PutBool(o.more, tail));
    EntriesImageSize(o.descriptors, PutBool(o.more, tail));
    CursorImageSize(o.lastCursor, [|o.descriptors| as byte] + t);
    CursorImageSize(o.firstCursor, PutCursor(o.lastCursor, [|o.descriptors| as byte] + t));
  }

  lemma CursorImageSize(c: Cursor, tail: Bytes)
    ensures |PutCursor(c, tail)| == CursorSize(c) + |tail|
  {
  }

  lemma RequestImageSize(q: Request, tail: Bytes)
    requires Fits(RequestOp(q))
    ensures |PutOperation(RequestOp(q), tail)| == OperationSize(RequestOp(q)) + |tail|
  {
    match q
    case InventoryPage(p) => CursorImageSize(p.committedCursor, [p.pageEntryLimit] + tail);
    case RepresentationData(d) =>
      SelectionsRoundTrip();
      ManySize(PutSelection, 48, d.selections, tail);
  }

  lemma ReceiptImageSize(x: Receipt, tail: Bytes)
    requires Fits(ReceiptOp(x))
    ensures |PutReceipt(x, tail)| == OperationSize(ReceiptOp(x)) + |tail|
  {
  }

  lemma OperationImageSize(op: Operation, tail: Bytes)
    requires Fits(op)
    ensures |PutOperation(op, tail)| == OperationSize(op) + |tail|
  {
    match op
    case CapabilitiesOp(c) => CapabilitiesImageSize(c, tail);
    case OfferOp(o) => OfferImageSize(o, tail);
    case RequestOp(q) => RequestImageSize(q, tail);
    case ReceiptOp(x) => ReceiptImageSize(x, tail);
    case _ =>
  }

  lemma ContentSize(r: Record)
    requires Fits(r.operation) && WritableExtensions(r.extensions) && |r.extensions| < 0x100
    ensures |Content(r)| == OperationSize(r.operation) + 1 + ExtensionsSize(r.extensions)
  {
    ExtensionsImageSize(r.extensions);
    OperationImageSize(r.operation, [|r.extensions| as byte] + PutExtensions(r.extensions, []));
  }

  /** The size calculator predicts every emitted record, and refuses exactly the records that are not emitted. */
  lemma EncodedSizeIsExact(r: Record)
    ensures Encode(r).Ok? <==> ExactSize(r).Ok?
    ensures Encode(r).Ok? ==> |Encode(r).value| == ExactSize(r).value <= MAX_RECORD_OCTETS
    ensures Encode(r).Err? ==> Encode(r).error == ExactSize(r).error
  {
    if ExactSize(r).Ok? {
      ValidFits(r.operation);
      ContentSize(r);
    }
  }

  // ---- Decoding undoes encoding ----

  lemma GotExtension(seen: set<u32>, e: Extension, tail: Bytes)
    requires e.id !in seen && |e.value| <= MAX_EXTENSION_VALUE_OCTETS
    ensures GetExtension(seen, PutExtension(e, tail)) == Parsed(e, tail)
  {
    GotU32(e.id, PutBool(e.critical, PutU16Octets(e.value, tail)));
    GotBool(e.critical, PutU16Octets(e.value, tail));
    GotU16(|e.value|, e.value + tail);
    TakeTook(e.value, tail);
  }

  lemma GotFirstExtension(supported: set<u32>, seen: set<u32>, es: seq<Extension>, s: Bytes, s1: Bytes, tail: Bytes)
    requires es != [] && (es[0].id in supported || !es[0].critical)
    requires GetExtension(seen, s) == Parsed(es[0], s1)
    requires GetExtensions(supported, |es| - 1, seen + {es[0].id}, s1) == Parsed(es[1..], tail)
    ensures GetExtensions(supported, |es|, seen, s) == Parsed(es, tail)
  {
    assert [es[0]] + es[1..] == es;
  }

  lemma {:induction false} GotExtensions(supported: set<u32>, es: seq<Extension>, seen: set<u32>, tail: Bytes)
    requires Accepted(supported, seen, es)
    ensures GetExtensions(supported, |es|, seen, PutExtensions(es, tail)) == Parsed(es, tail)
  {
    if es == [] {
      assert PutExtensions(es, tail) == tail;
    } else {
      hide GetExtension, GetExtensions, PutExtension;
      var rest := PutExtensions(es[1..], tail);
      GotExtension(seen, es[0], rest);
      forall e | e in es[1..]
        ensures e.id !in seen + {es[0].id}
      {
        assert e in es;
      }
      GotExtensions(supported, es[1..], seen + {es[0].id}, tail);
      GotFirstExtension(supported, seen, es, PutExtension(es[0], rest), rest, tail);
    }
  }

  lemma EnvelopeRead(tag: byte, length: u32, content: Bytes)
    ensures var b := Image(tag, length, content);
            && |b| == ENVELOPE_OCTETS + |content|
            && b[..2] == MAGIC && b[2] == tag && FromBE32(b[3..7]) == length && b[7..] == content
  {
    var b := Image(tag, length, content);
    assert b[3..7] == BE32(length);
    BE32Injective(FromBE32(b[3..7]), length);
  }

  lemma DecodeImage(tag: byte, content: Bytes, supported: set<u32>)
    requires |content| <= MAX_RECORD_OCTETS - ENVELOPE_OCTETS
    ensures Decode(Image(tag, |content|, content), supported) == DecodeContent(tag, content, supported)
  {
    EnvelopeRead(tag, |content|, content);
  }

  lemma ContentDecodes(r: Record, supported: set<u32>)
    requires ExactSize(r).Ok? && Tolerable(supported, r.extensions)
    ensures Fits(r.operation)
    ensures DecodeContent(Tag(r.operation), Content(r), supported) == Ok(Record(r.operation, Kept(supported, r.extensions)))
  {
    var tail := [|r.extensions| as byte] + PutExtensions(r.extensions, []);
    GotOperation(r.operation, tail);
    GotCount(MAX_EXTENSIONS, |r.extensions|, PutExtensions(r.extensions, []));
    GotExtensions(supported, r.extensions, {}, []);
  }

  lemma ContentEncodes(r: Record)
    requires Validate(r.operation).Pass? && ValidateExtensions(r.extensions).Pass? && Fits(r.operation)
    requires |Content(r)| <= MAX_RECORD_OCTETS - ENVELOPE_OCTETS
    ensures Encode(r) == Ok(Image(Tag(r.operation), |Content(r)|, Content(r)))
  {
    ContentSize(r);
  }

  /** Decoding an encoded record gives the record back, without the optional extensions the decoder does not know. */
  lemma DecodeUndoesEncode(r: Record, supported: set<u32>)
    requires Encode(r).Ok? && Tolerable(supported, r.extensions)
    ensures Decode(Encode(r).value, supported) == Ok(Record(r.operation, Kept(supported, r.extensions)))
    ensures (forall e | e in r.extensions :: e.id in supported) ==> Decode(Encode(r).value, supported) == Ok(r)
  {
    hide PutOperation, PutExtensions, Validate, DecodeContent, Decode;
    ContentDecodes(r, supported);
    ContentSize(r);
    ContentEncodes(r);
    DecodeImage(Tag(r.operation), Content(r), supported);
    KeptAll(supported, r.extensions);
  }

  // ---- Only encodings are accepted ----

  lemma ContentCanonical(tag: byte, content: Bytes, supported: set<u32>) returns (r: Record)
    requires DecodeContent(tag, content, supported).Ok?
    ensures Tag(r.operation) == tag && Validate(r.operation).Pass? && ValidateExtensions(r.extensions).Pass?
    ensures Fits(r.operation) && content == Content(r)
    ensures Tolerable(supported, r.extensions)
    ensures DecodeContent(tag, content, supported) == Ok(Record(r.operation, Kept(supported, r.extensions)))
  {
    var operation := GetOperation(tag, content);
    var count := GetCount(MAX_EXTENSIONS, operation.rest);
    var extensions := GetExtensions(supported, count.value, {}, count.rest);
    r := Record(operation.value, extensions.value);
  }

  lemma EnvelopeIsImage(bytes: Bytes)
    requires |bytes| >= ENVELOPE_OCTETS && bytes[..2] == MAGIC
    ensures bytes == Image(bytes[2], FromBE32(bytes[3..7]), bytes[7..])
  {
    assert bytes == bytes[..2] + ([bytes[2]] + (bytes[3..7] + bytes[7..]));
  }

  /** An accepted octet string is the encoding of some record; the decoder returns that record as far as it knows it. */
  lemma AcceptedIsEncoding(bytes: Bytes, supported: set<u32>) returns (r: Record)
    requires Decode(bytes, supported).Ok?
    ensures Encode(r) == Ok(bytes) && Tolerable(supported, r.extensions)
    ensures Decode(bytes, supported) == Ok(Record(r.operation, Kept(supported, r.extensions)))
  {
    EnvelopeIsImage(bytes);
    r := ContentCanonical(bytes[2], bytes[7..], supported);
    ContentEncodes(r);
  }

  ghost predicate EncodesTo(r: Record, bytes: Bytes) {
    Encode(r) == Ok(bytes)
  }

  /**
   The decoder accepts exactly the encodings of records whose unknown extensions are all optional,
   and returns the encoded record without them.
   */
  lemma DecodeCharacterised(bytes: Bytes, supported: set<u32>, result: Record)
    ensures Decode(bytes, supported) == Ok(result) <==>
              exists r :: EncodesTo(r, bytes) && Tolerable(supported, r.extensions)
                          && result == Record(r.operation, Kept(supported, r.extensions))
  {
    if Decode(bytes, supported) == Ok(result) {
      var r := AcceptedIsEncoding(bytes, supported);
      assert EncodesTo(r, bytes);
    }
    forall r | EncodesTo(r, bytes) && Tolerable(supported, r.extensions)
      ensures Decode(bytes, supported) == Ok(Record(r.operation, Kept(supported, r.extensions)))
    {
      DecodeUndoesEncode(r, supported);
    }
  }

  /** Two records never share an encoding. */
  lemma EncodeInjective(r: Record, q: Record)
    requires Encode(r).Ok? && Encode(r) == Encode(q)
    ensures r == q
  {
    var known := (set e | e in r.extensions :: e.id) + (set e | e in q.extensions :: e.id);
    DecodeUndoesEncode(r, known);
    DecodeUndoesEncode(q, known);
  }
}
