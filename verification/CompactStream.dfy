/** The compact codec as the program runs it: an output that grows and a position that advances. */
module CompactStream {
  import opened Wrappers
  import opened Octets
  import opened Operations
  import opened Wire
  import opened B1Codec
  import opened B1Record
  import opened CompactCodec
  import Varint
  import Readers
  import Writers

  /** Behind its envelope, a B1 image is the record's content. */
  lemma LegacyContent(r: Record)
    requires ExactSize(r).Ok?
    ensures Fits(r.operation) && WritableExtensions(r.extensions) && |r.extensions| < 0x100
    ensures Encode(r).Ok? && |Encode(r).value| >= ENVELOPE_OCTETS && Encode(r).value[ENVELOPE_OCTETS..] == Content(r)
  {
    ValidFits(r.operation);
    EncodedSizeIsExact(r);
    EnvelopeRead(Tag(r.operation), ExactSize(r).value - ENVELOPE_OCTETS, Content(r));
  }

  /** Appends the canonical form of a record whose size is known. */
  method PutBody(output: Bytes, r: Record, c: Context) returns (o: Bytes)
    requires ExactSize(r).Ok?
    ensures o == output + Body(r, c)
  {
    hide PutOperation, PutExtensions, ExactSize;
    match CanonicalForm(r, c) {
      case ProfileForm =>
        o := output + [PROFILE_FORM];
      case CachedForm(summary) =>
        o := output + [CACHED_SUMMARY_FORM] + Binding(c, summary);
      case SummaryForm(summary) =>
        o := output + [FULL_SUMMARY_FORM] + summary.collectionId;
        o := Varint.PutVarint(o, summary.generation);
        o := Varint.PutVarint(o, summary.itemCount);
        o := o + summary.digest;
        assert o == output + ([FULL_SUMMARY_FORM] + PutFullSummary(summary, []));
      case GenericForm =>
        var legacy := Writers.EncodeRecord(r);
        LegacyContent(r);
        o := output + [GENERIC_FORM] + legacy.value[ENVELOPE_OCTETS..];
    }
  }

  method EncodeFor(r: Record, c: Context) returns (encoded: Result<Bytes, Error>)
    ensures encoded == EncodeCompact(r, c)
  {
    hide Body, CanonicalForm;
    var body :- BodySize(r, c);
    var size := 1 + Varint.LengthSize(body) + body;
    if size > MAX_RECORD_OCTETS {
      return Err(Error.LimitExceeded("compact operation size"));
    }
    var output := [HEADER_PREFIX + Tag(r.operation)];
    output := Varint.PutVarint(output, body);
    output := PutBody(output, r, c);
    assert output == [HEADER_PREFIX + Tag(r.operation)] + (Varint.Image(body) + Body(r, c));
    encoded := Ok(output);
  }

  method TakeArray(bytes: Bytes, start: nat) returns (r: Result<Octets32, Error>, position: nat)
    requires start <= |bytes|
    ensures match GetArray32(bytes[start..])
            case Parsed(a, rest) => r == Ok(a) && position <= |bytes| && rest == bytes[position..]
            case Failed(e) => r == Err(e)
  {
    position := start + 32;
    if position > |bytes| {
      return Err(Truncated), start;
    }
    assert bytes[start..][..32] == bytes[start..position];
    r := Ok(bytes[start..position]);
  }

  method DecodeBinding(bytes: Bytes, start: nat, c: Context) returns (r: Result<Record, Error>)
    requires start <= |bytes|
    ensures r == DecodeCachedSummary(bytes[start..], c)
  {
    var binding, position := TakeArray(bytes, start);
    if binding.Err? {
      return Err(binding.error);
    }
    if position != |bytes| {
      return Err(TrailingBytes);
    }
    if c.cached.None? {
      return Err(Operations.Malformed("cached summary context"));
    }
    if binding.value != Binding(c, c.cached.value) {
      return Err(Operations.Malformed("cached summary binding"));
    }
    r := Ok(Record(SummaryOp(c.cached.value), []));
  }

  method DecodeSummary(bytes: Bytes, start: nat, c: Context) returns (r: Result<Record, Error>)
    requires start <= |bytes|
    ensures r == DecodeFullSummary(bytes[start..], c)
  {
    hide PutFullSummary, ExactSize, Varint.Get;
    var id, position := TakeArray(bytes, start);
    if id.Err? {
      return Err(id.error);
    }
    var generation, count;
    generation, position := Varint.TakeVarint(bytes, position);
    if generation.Err? {
      return Err(generation.error);
    }
    count, position := Varint.TakeVarint(bytes, position);
    if count.Err? {
      return Err(count.error);
    }
    var digest;
    digest, position := TakeArray(bytes, position);
    if digest.Err? {
      return Err(digest.error);
    }
    if position != |bytes| {
      return Err(TrailingBytes);
    }
    var summary := Summary(id.value, generation.value, count.value, digest.value);
    var size :- ExactSize(Record(SummaryOp(summary), []));
    r := if c.cached == Some(summary) then Err(NonCanonical("full cached summary")) else Ok(Record(SummaryOp(summary), []));
  }

  method DecodeForm(bytes: Bytes, start: nat, tag: byte, form: byte, supported: set<u32>, c: Context) returns (r: Result<Record, Error>)
    requires start <= |bytes|
    ensures r == DecodeBody(tag, form, bytes[start..], supported, c)
  {
    hide DecodeCachedSummary, DecodeFullSummary, Decode, ProfileCapabilities;
    if tag == 1 && form == PROFILE_FORM && start == |bytes| {
      return Ok(Record(CapabilitiesOp(ProfileCapabilities(c)), []));
    }
    if tag == 2 && form == CACHED_SUMMARY_FORM {
      r := DecodeBinding(bytes, start, c);
    } else if tag == 2 && form == FULL_SUMMARY_FORM {
      r := DecodeSummary(bytes, start, c);
    } else if form == GENERIC_FORM {
      var content := bytes[start..];
      if ENVELOPE_OCTETS + |content| > MAX_RECORD_OCTETS {
        return Err(Error.LimitExceeded("operation size"));
      }
      var record :- Readers.DecodeRecord(MAGIC + ([tag] + (BE32(|content|) + content)), supported);
      if record.extensions == [] && record.operation == CapabilitiesOp(ProfileCapabilities(c)) {
        return Err(NonCanonical("profile capabilities alias"));
      }
      r := if record.extensions == [] && record.operation.SummaryOp? then Err(NonCanonical("summary form")) else Ok(record);
    } else {
      r := Err(NonCanonical("compact form"));
    }
  }

  method DecodeFor(bytes: Bytes, supported: set<u32>, c: Context) returns (r: Result<Record, Error>)
    ensures r == DecodeCompact(bytes, supported, c)
  {
    hide DecodeBody, Varint.Get;
    if |bytes| < 3 {
      return Err(Truncated);
    }
    if |bytes| > MAX_RECORD_OCTETS {
      return Err(Error.LimitExceeded("compact operation size"));
    }
    var tag := bytes[0] % 8;
    if bytes[0] - tag != HEADER_PREFIX {
      return Err(InvalidMagic);
    }
    if tag == 0 {
      return Err(UnknownOperation(tag));
    }
    var length, position := Varint.TakeVarint(bytes, 1);
    if length.Err? {
      return Err(length.error);
    }
    if length.value != |bytes| - position {
      return Err(Operations.Malformed("compact envelope length"));
    }
    if position == |bytes| {
      return Err(Truncated);
    }
    assert bytes[position..][1..] == bytes[position + 1..];
    r := DecodeForm(bytes, position + 1, tag, bytes[position], supported, c);
  }
}
