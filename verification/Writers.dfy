/**
 The record writer: an output that fields are appended to, proved against the field images.

 `tail` is what the caller will append next, so that each method states its field as the images do.
 Every count and length fits its field because the record was validated and sized before the first octet is written.
 */
module Writers {
  import opened Wrappers
  import opened Octets
  import opened Representation
  import opened Operations
  import opened Wire
  import opened B1Fields
  import opened B1Codec
  import opened B1Record

  class Writer {
    var output: Bytes

    constructor ()
      ensures output == []
    {
      output := [];
    }

    /** With `tail` behind it, the output is the old output with `image` behind it. */
    twostate predicate Wrote(image: Bytes, tail: Bytes)
      reads this
    {
      output + tail == old(output) + image
    }

    method Extend(octets: Bytes, ghost tail: Bytes)
      modifies this
      ensures Wrote(octets + tail, tail)
    {
      output := output + octets;
    }

    method Push(b: byte, ghost tail: Bytes)
      modifies this
      ensures Wrote([b] + tail, tail)
    {
      output := output + [b];
    }

    // ---- Items ----

    method Boolean(b: bool, ghost tail: Bytes)
      modifies this
      ensures Wrote(PutBool(b, tail), tail)
    {
      Push(if b then 1 else 0, tail);
    }

    method U16Octets(v: Bytes, ghost tail: Bytes)
      requires |v| < 0x1_0000
      modifies this
      ensures Wrote(PutU16Octets(v, tail), tail)
    {
      Extend(BE16(|v|), v + tail);
      Extend(v, tail);
    }

    method U8Octets(v: Bytes, ghost tail: Bytes)
      requires |v| < 0x100
      modifies this
      ensures Wrote(PutU8Octets(v, tail), tail)
    {
      Push(|v|, v + tail);
      Extend(v, tail);
    }

    method OptionalText(text: Option<Text>, ghost tail: Bytes)
      requires text.Some? ==> |text.value| < 0x1_0000
      modifies this
      ensures Wrote(PutText(text, tail), tail)
    {
      if text.Some? {
        Boolean(true, BE16(|text.value|) + (text.value + tail));
        Extend(BE16(|text.value|), text.value + tail);
        Extend(text.value, tail);
      } else {
        Boolean(false, tail);
      }
    }

    method OptionalU64(v: Option<u64>, ghost tail: Bytes)
      modifies this
      ensures Wrote(PutOptionU64(v, tail), tail)
    {
      if v.Some? {
        Boolean(true, BE64(v.value) + tail);
        Extend(BE64(v.value), tail);
      } else {
        Boolean(false, tail);
      }
    }

    method OptionalArray(v: Option<Octets32>, ghost tail: Bytes)
      modifies this
      ensures Wrote(PutOptionArray(v, tail), tail)
    {
      if v.Some? {
        Boolean(true, v.value + tail);
        Extend(v.value, tail);
      } else {
        Boolean(false, tail);
      }
    }

    method EncodeCursor(c: Cursor, ghost tail: Bytes)
      modifies this
      ensures Wrote(PutCursor(c, tail), tail)
    {
      match c {
        case DeltaCursor(sequence) =>
          Push(0, BE64(sequence) + tail);
          Extend(BE64(sequence), tail);
        case FullCursor(key) =>
          Push(1, key.objectId + (BE32(key.partId) + (key.representationId + tail)));
          Extend(key.objectId, BE32(key.partId) + (key.representationId + tail));
          Extend(BE32(key.partId), key.representationId + tail);
          Extend(key.representationId, tail);
      }
    }

    method EncodeLengths(d: Descriptor, ghost tail: Bytes)
      modifies this
      ensures Wrote(PutLengths(d, tail), tail)
    {
      ghost var t := PutOptionU64(d.usefulnessExpiry, tail);
      Extend(BE64(d.encodedLength), PutOptionU64(d.decodedLength, d.contentDigest + t));
      OptionalU64(d.decodedLength, d.contentDigest + t);
      Extend(d.contentDigest, t);
      OptionalU64(d.usefulnessExpiry, tail);
    }

    method EncodeRepresentation(d: Descriptor, ghost tail: Bytes)
      requires |d.codecParameters| < 0x1_0000
      modifies this
      ensures Wrote(PutDescriptor(d, tail), tail)
    {
      ghost var t4 := PutU16Octets(d.codecParameters, PutLengths(d, tail));
      ghost var t3 := BE32(d.codecRevision) + t4;
      ghost var t2 := BE32(d.codecId) + t3;
      Extend(d.representationId, d.schemaFingerprint + t2);
      Extend(d.schemaFingerprint, t2);
      Extend(BE32(d.codecId), t3);
      Extend(BE32(d.codecRevision), t4);
      U16Octets(d.codecParameters, PutLengths(d, tail));
      EncodeLengths(d, tail);
    }

    method EncodeDescriptor(e: Entry, ghost tail: Bytes)
      requires |e.descriptor.codecParameters| < 0x1_0000
      modifies this
      ensures Wrote(PutEntry(e, tail), tail)
    {
      hide PutDescriptor;
      ghost var t := PutDescriptor(e.descriptor, tail);
      Extend(BE64(e.sequence), e.objectId + (BE32(e.partId) + t));
      Extend(e.objectId, BE32(e.partId) + t);
      Extend(BE32(e.partId), t);
      EncodeRepresentation(e.descriptor, tail);
    }

    method EncodeDescriptors(es: seq<Entry>, ghost tail: Bytes)
      requires Writable(es)
      modifies this
      ensures Wrote(PutEntries(es, tail), tail)
    {
      hide PutEntry;
      for i := 0 to |es|
        invariant Wrote(PutEntries(es, tail), PutEntries(es[i..], tail))
      {
        assert es[i..][1..] == es[i + 1..];
        EncodeDescriptor(es[i], PutEntries(es[i + 1..], tail));
      }
    }

    method EncodeExtensions(es: seq<Extension>, ghost tail: Bytes)
      requires WritableExtensions(es)
      modifies this
      ensures Wrote(PutExtensions(es, tail), tail)
    {
      for i := 0 to |es|
        invariant Wrote(PutExtensions(es, tail), PutExtensions(es[i..], tail))
      {
        assert es[i..][1..] == es[i + 1..];
        EncodeExtension(es[i], PutExtensions(es[i + 1..], tail));
      }
    }

    method EncodeExtension(e: Extension, ghost tail: Bytes)
      requires |e.value| <= MAX_EXTENSION_VALUE_OCTETS
      modifies this
      ensures Wrote(PutExtension(e, tail), tail)
    {
      ghost var t := PutU16Octets(e.value, tail);
      Extend(BE32(e.id), PutBool(e.critical, t));
      Boolean(e.critical, t);
      U16Octets(e.value, tail);
    }

    // ---- Operation payloads ----

    method EncodeGenerations(xs: seq<Generation>, ghost tail: Bytes)
      modifies this
      ensures Wrote(PutMany(PutGeneration, xs, tail), tail)
    {
      for i := 0 to |xs|
        invariant Wrote(PutMany(PutGeneration, xs, tail), PutMany(PutGeneration, xs[i..], tail))
      {
        assert xs[i..][1..] == xs[i + 1..];
        ghost var t := PutMany(PutGeneration, xs[i + 1..], tail);
        Extend(BE16(xs[i].major), BE16(xs[i].minor) + t);
        Extend(BE16(xs[i].minor), t);
      }
    }

    method EncodeSchemas(xs: seq<Octets32>, ghost tail: Bytes)
      modifies this
      ensures Wrote(PutMany(PutSchema, xs, tail), tail)
    {
      for i := 0 to |xs|
        invariant Wrote(PutMany(PutSchema, xs, tail), PutMany(PutSchema, xs[i..], tail))
      {
        assert xs[i..][1..] == xs[i + 1..];
        ghost var t := PutMany(PutSchema, xs[i + 1..], tail);
        Extend(xs[i], t);
      }
    }

    method EncodePreferences(xs: seq<CodecPreference>, ghost tail: Bytes)
      modifies this
      ensures Wrote(PutMany(PutPreference, xs, tail), tail)
    {
      for i := 0 to |xs|
        invariant Wrote(PutMany(PutPreference, xs, tail), PutMany(PutPreference, xs[i..], tail))
      {
        assert xs[i..][1..] == xs[i + 1..];
        ghost var t := PutMany(PutPreference, xs[i + 1..], tail);
        Extend(BE32(xs[i].codecId), BE32(xs[i].revision) + (xs[i].schema + t));
        Extend(BE32(xs[i].revision), xs[i].schema + t);
        Extend(xs[i].schema, t);
      }
    }

    method EncodeDeclarations(xs: seq<ExtensionDeclaration>, ghost tail: Bytes)
      modifies this
      ensures Wrote(PutMany(PutDeclaration, xs, tail), tail)
    {
      for i := 0 to |xs|
        invariant Wrote(PutMany(PutDeclaration, xs, tail), PutMany(PutDeclaration, xs[i..], tail))
      {
        assert xs[i..][1..] == xs[i + 1..];
        ghost var t := PutMany(PutDeclaration, xs[i + 1..], tail);
        Extend(BE32(xs[i].id), PutBool(xs[i].critical, t));
        Boolean(xs[i].critical, t);
      }
    }

    method EncodeSelections(xs: seq<Selection>, ghost tail: Bytes)
      modifies this
      ensures Wrote(PutMany(PutSelection, xs, tail), tail)
    {
      for i := 0 to |xs|
        invariant Wrote(PutMany(PutSelection, xs, tail), PutMany(PutSelection, xs[i..], tail))
      {
        assert xs[i..][1..] == xs[i + 1..];
        ghost var t := PutMany(PutSelection, xs[i + 1..], tail);
        Extend(xs[i].representationId, BE64(xs[i].durablePrefixOffset) + (BE64(xs[i].maxDesiredPayloadOctets) + t));
        Extend(BE64(xs[i].durablePrefixOffset), BE64(xs[i].maxDesiredPayloadOctets) + t);
        Extend(BE64(xs[i].maxDesiredPayloadOctets), t);
      }
    }

    method EncodeLimits(c: Capabilities, ghost tail: Bytes)
      requires |c.extensions| < 0x100
      modifies this
      ensures Wrote(PutLimits(c, tail), tail)
    {
      ghost var t4 := PutMany(PutDeclaration, c.extensions, tail);
      ghost var t3 := [|c.extensions| as byte] + t4;
      ghost var t2 := [SecurityTag(c.securityClass)] + t3;
      ghost var t1 := [c.receiptLevels] + t2;
      Extend(BE32(c.maxOperationOctets), BE64(c.maxDataPayloadOctets) + t1);
      Extend(BE64(c.maxDataPayloadOctets), t1);
      Push(c.receiptLevels, t2);
      Push(SecurityTag(c.securityClass), t3);
      Push(|c.extensions|, t4);
      EncodeDeclarations(c.extensions, tail);
    }

    method EncodeCapabilities(c: Capabilities, ghost tail: Bytes)
      requires Counted(c)
      modifies this
      ensures Wrote(PutCapabilities(c, tail), tail)
    {
      ghost var t3 := PutLimits(c, tail);
      ghost var m3 := PutMany(PutPreference, c.codecs, t3);
      ghost var t2 := [|c.codecs| as byte] + m3;
      ghost var m2 := PutMany(PutSchema, c.schemas, t2);
      ghost var t1 := [|c.schemas| as byte] + m2;
      Push(|c.generations|, PutMany(PutGeneration, c.generations, t1));
      EncodeGenerations(c.generations, t1);
      Push(|c.schemas|, m2);
      EncodeSchemas(c.schemas, t2);
      Push(|c.codecs|, m3);
      EncodePreferences(c.codecs, t3);
      EncodeLimits(c, tail);
    }

    method EncodeSummary(x: Summary, ghost tail: Bytes)
      modifies this
      ensures Wrote(PutSummary(x, tail), tail)
    {
      Extend(x.collectionId, BE64(x.generation) + (BE64(x.itemCount) + (x.digest + tail)));
      Extend(BE64(x.generation), BE64(x.itemCount) + (x.digest + tail));
      Extend(BE64(x.itemCount), x.digest + tail);
      Extend(x.digest, tail);
    }

    method EncodeOffer(o: Offer, ghost tail: Bytes)
      requires |o.descriptors| < 0x100 && Writable(o.descriptors)
      modifies this
      ensures Wrote(PutOffer(o, tail), tail)
    {
      hide PutEntries, PutCursor;
      ghost var t8 := PutBool(o.more, tail);
      ghost var t7 := PutEntries(o.descriptors, t8);
      ghost var t6 := [|o.descriptors| as byte] + t7;
      ghost var t5 := PutCursor(o.lastCursor, t6);
      ghost var t4 := PutCursor(o.firstCursor, t5);
      Extend(o.collectionId, [ModeTag(o.mode)] + (BE64(o.baseGeneration) + (BE64(o.targetGeneration) + t4)));
      Push(ModeTag(o.mode), BE64(o.baseGeneration) + (BE64(o.targetGeneration) + t4));
      Extend(BE64(o.baseGeneration), BE64(o.targetGeneration) + t4);
      Extend(BE64(o.targetGeneration), t4);
      EncodeCursor(o.firstCursor, t5);
      EncodeCursor(o.lastCursor, t6);
      Push(|o.descriptors|, t7);
      EncodeDescriptors(o.descriptors, t8);
      Boolean(o.more, tail);
    }

    method EncodePage(p: InventoryPageRequest, ghost tail: Bytes)
      modifies this
      ensures Wrote(PutPage(p, tail), tail)
    {
      ghost var t := PutCursor(p.committedCursor, [p.pageEntryLimit] + tail);
      Extend(p.collectionId, BE64(p.targetGeneration) + ([ModeTag(p.mode)] + t));
      Extend(BE64(p.targetGeneration), [ModeTag(p.mode)] + t);
      Push(ModeTag(p.mode), t);
      EncodeCursor(p.committedCursor, [p.pageEntryLimit] + tail);
      Push(p.pageEntryLimit, tail);
    }

    method EncodeDataRequest(q: DataRequest, ghost tail: Bytes)
      requires |q.selections| < 0x100
      modifies this
      ensures Wrote(PutDataRequest(q, tail), tail)
    {
      ghost var t5 := PutMany(PutSelection, q.selections, tail);
      ghost var t4 := [|q.selections| as byte] + t5;
      Extend(q.budgetId, BE64(q.maxTotal) + (BE64(q.maxSenderToReceiver) + (BE64(q.maxReceiverToSender) + t4)));
      Extend(BE64(q.maxTotal), BE64(q.maxSenderToReceiver) + (BE64(q.maxReceiverToSender) + t4));
      Extend(BE64(q.maxSenderToReceiver), BE64(q.maxReceiverToSender) + t4);
      Extend(BE64(q.maxReceiverToSender), t4);
      Push(|q.selections|, t5);
      EncodeSelections(q.selections, tail);
    }

    method EncodeData(d: Data, ghost tail: Bytes)
      requires |d.payload| < 0x1_0000_0000
      modifies this
      ensures Wrote(PutData(d, tail), tail)
    {
      Extend(d.representationId, BE64(d.offset) + (BE32(|d.payload|) + (d.payload + tail)));
      Extend(BE64(d.offset), BE32(|d.payload|) + (d.payload + tail));
      Extend(BE32(|d.payload|), d.payload + tail);
      Extend(d.payload, tail);
    }

    method EncodeReceipt(x: Receipt, ghost tail: Bytes)
      requires x.reason.Some? ==> |x.reason.value| < 0x1_0000
      modifies this
      ensures Wrote(PutReceipt(x, tail), tail)
    {
      ghost var t4 := PutText(x.reason, tail);
      ghost var t2 := PutOptionArray(x.verifiedDigest, x.idempotencyId + t4);
      Extend(x.subjectId, [StatusTag(x.status)] + t2);
      Push(StatusTag(x.status), t2);
      OptionalArray(x.verifiedDigest, x.idempotencyId + t4);
      Extend(x.idempotencyId, t4);
      OptionalText(x.reason, tail);
    }

    method EncodeFailure(x: Failure, ghost tail: Bytes)
      requires |x.scope| < 0x100 && (x.detail.Some? ==> |x.detail.value| < 0x1_0000)
      modifies this
      ensures Wrote(PutFailure(x, tail), tail)
    {
      ghost var t3 := PutText(x.detail, tail);
      ghost var t2 := PutBool(x.retryable, t3);
      Push(CodeTag(x.code), PutU8Octets(x.scope, t2));
      U8Octets(x.scope, t2);
      Boolean(x.retryable, t3);
      OptionalText(x.detail, tail);
    }

    method EncodePayload(op: Operation, ghost tail: Bytes)
      requires Fits(op)
      modifies this
      ensures Wrote(PutOperation(op, tail), tail)
    {
      hide PutCapabilities, PutSummary, PutOffer, PutPage, PutDataRequest, PutData, PutReceipt, PutFailure;
      match op {
        case CapabilitiesOp(c) => EncodeCapabilities(c, tail);
        case SummaryOp(x) => EncodeSummary(x, tail);
        case OfferOp(o) => EncodeOffer(o, tail);
        case RequestOp(InventoryPage(p)) =>
          Push(0, PutPage(p, tail));
          EncodePage(p, tail);
        case RequestOp(RepresentationData(q)) =>
          Push(1, PutDataRequest(q, tail));
          EncodeDataRequest(q, tail);
        case DataOp(d) => EncodeData(d, tail);
        case ReceiptOp(x) => EncodeReceipt(x, tail);
        case FailureOp(x) => EncodeFailure(x, tail);
      }
    }
  }

  /** Encoding of one complete record, sized before the first octet is written. */
  method EncodeRecord(r: Record) returns (encoded: Result<Bytes, Error>)
    ensures encoded == Encode(r)
  {
    hide PutOperation, PutExtensions, Validate;
    var size :- ExactSize(r);
    ValidFits(r.operation);
    var writer := new Writer();
    ghost var tail := [|r.extensions| as byte] + PutExtensions(r.extensions, []);
    ghost var content := PutOperation(r.operation, tail);
    var length := BE32(size - ENVELOPE_OCTETS);
    writer.Extend(MAGIC, [Tag(r.operation)] + (length + content));
    writer.Push(Tag(r.operation), length + content);
    writer.Extend(length, content);
    writer.EncodePayload(r.operation, tail);
    writer.Push(|r.extensions|, PutExtensions(r.extensions, []));
    writer.EncodeExtensions(r.extensions, []);
    assert writer.output + [] == writer.output;
    assert content == Content(r) && [] + Image(Tag(r.operation), size - ENVELOPE_OCTETS, content) == Image(Tag(r.operation), size - ENVELOPE_OCTETS, content);
    encoded := Ok(writer.output);
  }
}
