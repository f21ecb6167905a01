/** In a fixed context, compact decoding and encoding undo each other, with one exactly described exception. */
module CompactBijection {
  import opened Wrappers
  import opened Octets
  import opened Representation
  import opened Operations
  import opened Wire
  import opened B1Codec
  import opened B1Record
  import opened CompactCodec
  import Varint

  /**
   The exception: a record that is generic only because of extensions the decoder does not know.
   They are dropped before the alias test, which then takes the rest for a forbidden spelling.
   */
  predicate LosesItsExtensions(r: Record, supported: set<u32>, c: Context) {
    r.extensions != [] && Aliased(Record(r.operation, Kept(supported, r.extensions)), c)
  }

  lemma EnvelopeOpens(tag: byte, body: Bytes)
    requires 1 <= tag <= 7 && body != [] && |body| <= U64_MAX
    requires 1 + |Varint.Image(|body|)| + |body| <= MAX_RECORD_OCTETS
    ensures OpenEnvelope([HEADER_PREFIX + tag] + (Varint.Image(|body|) + body)) == Ok(Envelope(tag, body))
  {
    var bytes: Bytes := [HEADER_PREFIX + tag] + (Varint.Image(|body|) + body);
    assert bytes[1..] == Varint.Image(|body|) + body;
    Varint.GotVarint(|body|, body);
    Varint.ImageSize(|body|);
  }

  lemma GenericBodyDecodes(r: Record, supported: set<u32>, c: Context)
    requires ExactSize(r).Ok? && Fits(r.operation) && Tolerable(supported, r.extensions)
    ensures var kept := Record(r.operation, Kept(supported, r.extensions));
            && (DecodeGeneric(Tag(r.operation), Content(r), supported, c).Ok? <==> !Aliased(kept, c))
            && (!Aliased(kept, c) ==> DecodeGeneric(Tag(r.operation), Content(r), supported, c) == Ok(kept))
  {
    ContentSize(r);
    ContentEncodes(r);
    DecodeUndoesEncode(r, supported);
  }

  lemma SummaryBodyDecodes(s: Summary, c: Context)
    requires ValidateSummary(s).Pass? && c.cached != Some(s)
    ensures DecodeFullSummary(PutFullSummary(s, []), c) == Ok(Record(SummaryOp(s), []))
  {
    GotFullSummary(s);
  }

  lemma CachedBodyDecodes(s: Summary, c: Context)
    requires c.cached == Some(s)
    ensures DecodeCachedSummary(Binding(c, s), c) == Ok(Record(SummaryOp(s), []))
  {
    GotArray32(Binding(c, s), []);
    assert Binding(c, s) + [] == Binding(c, s);
  }

  lemma BodyDecodes(r: Record, supported: set<u32>, c: Context)
    requires ExactSize(r).Ok? && Tolerable(supported, r.extensions)
    ensures var body := Body(r, c);
            var decoded := DecodeBody(Tag(r.operation), body[0], body[1..], supported, c);
            && (decoded.Ok? <==> !LosesItsExtensions(r, supported, c))
            && (decoded.Ok? ==> decoded == Ok(Record(r.operation, Kept(supported, r.extensions))))
  {
    ValidFits(r.operation);
    var body := Body(r, c);
    match CanonicalForm(r, c) {
      case ProfileForm =>
      case CachedForm(s) =>
        assert body[1..] == Binding(c, s);
        CachedBodyDecodes(s, c);
      case SummaryForm(s) =>
        assert body[1..] == PutFullSummary(s, []);
        SummaryBodyDecodes(s, c);
      case GenericForm =>
        assert body[1..] == Content(r);
        GenericBodyDecodes(r, supported, c);
    }
  }

  /** Decoding a compact record gives it back, unless the exception applies, in which case it is refused. */
  lemma CompactDecodeUndoesEncode(r: Record, supported: set<u32>, c: Context)
    requires EncodeCompact(r, c).Ok? && Tolerable(supported, r.extensions)
    ensures var decoded := DecodeCompact(EncodeCompact(r, c).value, supported, c);
            && (decoded.Ok? <==> !LosesItsExtensions(r, supported, c))
            && (decoded.Ok? ==> decoded == Ok(Record(r.operation, Kept(supported, r.extensions))))
            && ((forall e | e in r.extensions :: e.id in supported) ==> decoded == Ok(r))
  {
    hide Body, DecodeBody, OpenEnvelope, ExactSize, CanonicalForm, ProfileCapabilities;
    BodySizeIsExact(r, c);
    BodyDecodes(r, supported, c);
    EnvelopeOpens(Tag(r.operation), Body(r, c));
    KeptAll(supported, r.extensions);
  }

  // ---- Only encodings are accepted ----

  lemma ProfileIsValid(c: Context)
    ensures ExactSize(Record(CapabilitiesOp(ProfileCapabilities(c)), [])).Ok?
  {
    var x := ProfileCapabilities(c);
    assert forall p | p in x.codecs :: p.schema in x.schemas;
  }

  lemma GenericIsEncoding(tag: byte, content: Bytes, supported: set<u32>, c: Context) returns (r: Record)
    requires DecodeGeneric(tag, content, supported, c).Ok?
    ensures ExactSize(r).Ok? && Fits(r.operation) && Tag(r.operation) == tag && Content(r) == content
    ensures Tolerable(supported, r.extensions) && CanonicalForm(r, c) == GenericForm
  {
    DecodeImage(tag, content, supported);
    r := ContentCanonical(tag, content, supported);
    ContentEncodes(r);
    KeptAll(supported, r.extensions);
  }

  lemma CachedIsEncoding(content: Bytes, c: Context) returns (r: Record)
    requires ValidContext(c) && DecodeCachedSummary(content, c).Ok?
    ensures ExactSize(r).Ok? && Tag(r.operation) == 2 && r.extensions == []
    ensures Body(r, c) == [CACHED_SUMMARY_FORM] + content
  {
    r := Record(SummaryOp(c.cached.value), []);
    assert content == Binding(c, c.cached.value);
  }

  lemma SummaryIsEncoding(content: Bytes, c: Context) returns (r: Record)
    requires DecodeFullSummary(content, c).Ok?
    ensures ExactSize(r).Ok? && Tag(r.operation) == 2 && r.extensions == []
    ensures Body(r, c) == [FULL_SUMMARY_FORM] + content
  {
    r := Record(SummaryOp(GetFullSummary(content).value), []);
  }

  lemma BodyIsEncoding(tag: byte, form: byte, content: Bytes, supported: set<u32>, c: Context) returns (r: Record)
    requires ValidContext(c) && DecodeBody(tag, form, content, supported, c).Ok?
    ensures ExactSize(r).Ok? && Tag(r.operation) == tag && Body(r, c) == [form] + content && Tolerable(supported, r.extensions)
  {
    hide DecodeGeneric, DecodeFullSummary, DecodeCachedSummary, ExactSize;
    if tag == 1 && form == PROFILE_FORM && content == [] {
      ProfileIsValid(c);
      r := Record(CapabilitiesOp(ProfileCapabilities(c)), []);
    } else if tag == 2 && form == CACHED_SUMMARY_FORM {
      r := CachedIsEncoding(content, c);
    } else if tag == 2 && form == FULL_SUMMARY_FORM {
      r := SummaryIsEncoding(content, c);
    } else {
      r := GenericIsEncoding(tag, content, supported, c);
    }
  }

  lemma EnvelopeIsCanonical(bytes: Bytes)
    requires OpenEnvelope(bytes).Ok?
    ensures var e := OpenEnvelope(bytes).value;
            |e.body| <= U64_MAX && bytes == [HEADER_PREFIX + e.tag] + (Varint.Image(|e.body|) + e.body)
  {
    Varint.GetCanonical(bytes[1..]);
    assert bytes == [bytes[0]] + bytes[1..];
  }

  /** An accepted octet string is the compact encoding of some record. */
  lemma AcceptedIsCompactEncoding(bytes: Bytes, supported: set<u32>, c: Context) returns (r: Record)
    requires ValidContext(c) && DecodeCompact(bytes, supported, c).Ok?
    ensures EncodeCompact(r, c) == Ok(bytes) && Tolerable(supported, r.extensions)
  {
    EnvelopeIsCanonical(bytes);
    var e := OpenEnvelope(bytes).value;
    r := BodyIsEncoding(e.tag, e.body[0], e.body[1..], supported, c);
    assert Body(r, c) == e.body;
    CompactIsShorter(r, c);
    BodySizeIsExact(r, c);
  }

  ghost predicate CompactTo(r: Record, c: Context, bytes: Bytes) {
    EncodeCompact(r, c) == Ok(bytes)
  }

  /**
   In a context whose cached summary is absent or valid, the decoder accepts exactly the encodings of records whose
   unknown extensions are optional and that keep what makes them generic, and returns them without those extensions.
   */
  lemma CompactDecodeCharacterised(bytes: Bytes, supported: set<u32>, c: Context, result: Record)
    requires ValidContext(c)
    ensures DecodeCompact(bytes, supported, c) == Ok(result) <==>
              exists r: Record :: CompactTo(r, c, bytes) && Tolerable(supported, r.extensions) && !LosesItsExtensions(r, supported, c)
                          && result == Record(r.operation, Kept(supported, r.extensions))
  {
    if DecodeCompact(bytes, supported, c) == Ok(result) {
      var r := AcceptedIsCompactEncoding(bytes, supported, c);
      CompactDecodeUndoesEncode(r, supported, c);
      assert CompactTo(r, c, bytes);
    }
    forall r: Record | CompactTo(r, c, bytes) && Tolerable(supported, r.extensions) && !LosesItsExtensions(r, supported, c)
      ensures DecodeCompact(bytes, supported, c) == Ok(Record(r.operation, Kept(supported, r.extensions)))
    {
      CompactDecodeUndoesEncode(r, supported, c);
    }
  }

  /** The exception is real: a summary with one unknown optional extension is a valid record that its own encoding does not give back. */
  lemma OptionalExtensionRefused(c: Context, id: u32, summary: Summary)
    requires ValidateSummary(summary).Pass?
    ensures var r := Record(SummaryOp(summary), [Extension(id, false, [])]);
            && EncodeCompact(r, c).Ok?
            && DecodeCompact(EncodeCompact(r, c).value, {}, c).Err?
            && Encode(r).Ok? && Decode(Encode(r).value, {}) == Ok(Record(SummaryOp(summary), []))
  {
    var r := Record(SummaryOp(summary), [Extension(id, false, [])]);
    assert r.extensions[1..] == [];
    assert ValidateExtensions(r.extensions).Pass? && ExtensionsSize(r.extensions) == 7;
    CompactIsShorter(r, c);
    CompactDecodeUndoesEncode(r, {}, c);
    DecodeUndoesEncode(r, {});
  }

  // ---- Two ends that remember different checkpoints ----

  /** Same digest function and codec identity; the checkpoints they remember may differ. */
  ghost predicate SameButCached(a: Context, b: Context) {
    a.sha == b.sha && a.codecId == b.codecId && a.revision == b.revision
  }

  lemma SummaryImageInjective(s: Summary, t: Summary)
    requires PutSummary(s, []) == PutSummary(t, [])
    ensures s == t
  {
    GotSummary(s, []);
    GotSummary(t, []);
  }

  lemma BindingFixesSummary(a: Context, b: Context, s: Summary, t: Summary)
    requires SameButCached(a, b) && NoCollision(a.sha, BINDING_DOMAIN + PutSummary(s, []))
    requires Binding(b, t) == Binding(a, s)
    ensures s == t
  {
    var x, y := BINDING_DOMAIN + PutSummary(s, []), BINDING_DOMAIN + PutSummary(t, []);
    assert x == y;
    assert x[|BINDING_DOMAIN|..] == PutSummary(s, []) && y[|BINDING_DOMAIN|..] == PutSummary(t, []);
    SummaryImageInjective(s, t);
  }

  /** A cached form is understood exactly where the same checkpoint is remembered. */
  lemma CachedFormAcross(s: Summary, a: Context, b: Context)
    requires SameButCached(a, b) && NoCollision(a.sha, BINDING_DOMAIN + PutSummary(s, []))
    ensures DecodeCachedSummary(Binding(a, s), b) ==
              if b.cached == Some(s) then Ok(Record(SummaryOp(s), []))
              else Err(Malformed(if b.cached.None? then "cached summary context" else "cached summary binding"))
  {
    GotArray32(Binding(a, s), []);
    assert Binding(a, s) + [] == Binding(a, s);
    if b.cached.Some? && Binding(b, b.cached.value) == Binding(a, s) {
      BindingFixesSummary(a, b, s, b.cached.value);
    }
  }

  /** A full form is understood exactly where the checkpoint is not the remembered one, which would have had the cached form. */
  lemma FullFormAcross(s: Summary, b: Context)
    requires ValidateSummary(s).Pass?
    ensures DecodeFullSummary(PutFullSummary(s, []), b) ==
              if b.cached == Some(s) then Err(NonCanonical("full cached summary")) else Ok(Record(SummaryOp(s), []))
  {
    GotFullSummary(s);
  }

  lemma BodyAcross(r: Record, supported: set<u32>, a: Context, b: Context)
    requires ExactSize(r).Ok? && Tolerable(supported, r.extensions) && SameButCached(a, b)
    requires r.operation.SummaryOp? && a.cached == Some(r.operation.summary) ==>
               NoCollision(a.sha, BINDING_DOMAIN + PutSummary(r.operation.summary, []))
    ensures Body(r, a) != [] && AnsweredAcross(r, supported, a, b, DecodeBody(Tag(r.operation), Body(r, a)[0], Body(r, a)[1..], supported, b))
  {
    hide Tolerable, ProfileCapabilities;
    ValidFits(r.operation);
    var body := Body(r, a);
    match CanonicalForm(r, a) {
      case ProfileForm =>
        assert ProfileCapabilities(a) == ProfileCapabilities(b) by { ProfileAcross(a, b); }
      case CachedForm(s) =>
        assert body[1..] == Binding(a, s);
        CachedFormAcross(s, a, b);
      case SummaryForm(s) =>
        assert body[1..] == PutFullSummary(s, []);
        FullFormAcross(s, b);
      case GenericForm =>
        assert body[1..] == Content(r);
        ProfileAcross(a, b);
        GenericBodyDecodes(r, supported, b);
        KeptNothing(supported);
    }
  }

  lemma KeptNothing(supported: set<u32>)
    ensures Kept(supported, []) == []
  {
  }

  lemma ProfileAcross(a: Context, b: Context)
    requires SameButCached(a, b)
    ensures ProfileCapabilities(a) == ProfileCapabilities(b)
  {
  }

  /** What the other end answers to a record encoded here. */
  ghost predicate AnsweredAcross(r: Record, supported: set<u32>, a: Context, b: Context, decoded: Result<Record, Error>) {
    && (decoded.Ok? ==> decoded == Ok(Record(r.operation, Kept(supported, r.extensions))))
    && (if r.operation.SummaryOp? && r.extensions == [] then
          if a.cached == b.cached then decoded.Ok?
          else if a.cached == Some(r.operation.summary) then
            decoded == Err(Malformed(if b.cached.None? then "cached summary context" else "cached summary binding"))
          else if b.cached == Some(r.operation.summary) then decoded == Err(NonCanonical("full cached summary"))
          else decoded.Ok?
        else
          decoded.Ok? <==> !LosesItsExtensions(r, supported, b))
  }

  /**
   Ends that remember different checkpoints never take one summary for another (barring a digest collision): what one end decodes of the other's
   encoding is the encoded record. A summary passes exactly if both remember the same checkpoint or neither remembers the one sent,
   and is refused with the reason otherwise; any other record passes as if both remembered the same.
   */
  lemma AcrossContexts(r: Record, supported: set<u32>, a: Context, b: Context)
    requires EncodeCompact(r, a).Ok? && Tolerable(supported, r.extensions) && SameButCached(a, b)
    requires r.operation.SummaryOp? && a.cached == Some(r.operation.summary) ==>
               NoCollision(a.sha, BINDING_DOMAIN + PutSummary(r.operation.summary, []))
    ensures AnsweredAcross(r, supported, a, b, DecodeCompact(EncodeCompact(r, a).value, supported, b))
  {
    hide Body, DecodeBody, OpenEnvelope, ExactSize, CanonicalForm, ProfileCapabilities, AnsweredAcross;
    BodySizeIsExact(r, a);
    BodyAcross(r, supported, a, b);
    EnvelopeOpens(Tag(r.operation), Body(r, a));
  }
}
