/** The vectors the repository publishes for its two codecs, for all the field values they leave open. */
module Vectors {
  import opened Wrappers
  import opened Octets
  import opened Operations
  import opened B1Record
  import opened CompactCodec
  import B1Codec
  import B1Fields
  import CompactBijection
  import Varint
  import Wire
  import WireLayout

  lemma FailureContent(f: Failure)
    requires f.scope == [0x53] && f.detail.None?
    ensures B1Codec.Fits(FailureOp(f))
    ensures Content(Record(FailureOp(f), [])) == [WireLayout.CodeNumber(f.code), 0x01, 0x53, if f.retryable then 0x01 else 0x00, 0x00, 0x00]
  {
    hide WireLayout.CodeNumber, B1Fields.CodeTag;
    WireLayout.CodesAgree(f.code);
  }

  lemma FailureSize(f: Failure)
    requires f.scope == [0x53] && f.detail.None?
    ensures ExactSize(Record(FailureOp(f), [])) == Ok(13)
  {
  }

  /** The 26 failure records of scope "S". */
  lemma FailureVectors(code: FailureCode, retryable: bool)
    ensures Encode(Record(FailureOp(Failure(code, [0x53], retryable, None)), [])) ==
              Ok([0x42, 0x31, 0x07, 0x00, 0x00, 0x00, 0x06, WireLayout.CodeNumber(code), 0x01, 0x53, if retryable then 0x01 else 0x00, 0x00, 0x00])
  {
    hide WireLayout.CodeNumber, ExactSize, Content;
    var f := Failure(code, [0x53], retryable, None);
    FailureSize(f);
    FailureContent(f);
    assert BE32(6) == [0, 0, 0, 6];
    assert Encode(Record(FailureOp(f), [])).value ==
           [0x42, 0x31, 0x07, 0x00, 0x00, 0x00, 0x06, WireLayout.CodeNumber(code), 0x01, 0x53, if retryable then 0x01 else 0x00, 0x00, 0x00];
  }

  /** The private identity of the compact candidate. */
  function Candidate(sha: Hash, cached: Option<Summary>): Context {
    Context(sha, 0xffff_0001, 2, cached)
  }

  lemma ShortLength(n: nat)
    requires n < 0x80
    ensures Varint.Image(n) == [n] && Varint.Size(n) == 1 && Varint.LengthSize(n) == 1
  {
  }

  lemma CapabilitiesVector(sha: Hash, cached: Option<Summary>)
    ensures var c := Candidate(sha, cached);
            EncodeCompact(Record(CapabilitiesOp(ProfileCapabilities(c)), []), c) == Ok([0xb1, 0x01, 0x01])
  {
    hide Varint.Image, Varint.Size, Varint.LengthSize, ExactSize;
    var c := Candidate(sha, cached);
    var r := Record(CapabilitiesOp(ProfileCapabilities(c)), []);
    CompactBijection.ProfileIsValid(c);
    ShortLength(1);
    assert BodySize(r, c) == Ok(1) && Body(r, c) == [PROFILE_FORM];
    assert EncodeCompact(r, c).value == [0xb1, 0x01, 0x01];
  }

  /** A summary of 100 items at generation 100, by itself and where it is remembered. */
  lemma SummaryVectors(sha: Hash, cached: Option<Summary>, id: Octets32, digest: Octets32)
    ensures var c, s := Candidate(sha, cached), Summary(id, 100, 100, digest);
            EncodeCompact(Record(SummaryOp(s), []), c) ==
              if cached == Some(s) then
                Ok([0xb2, 0x21, 0x02] + sha(BINDING_DOMAIN + id + [0, 0, 0, 0, 0, 0, 0, 100] + [0, 0, 0, 0, 0, 0, 0, 100] + digest))
              else
                Ok([0xb2, 0x43, 0x01] + id + [0x64, 0x64] + digest)
  {
    if cached == Some(Summary(id, 100, 100, digest)) {
      CachedVector(sha, id, digest);
    } else {
      FullVector(sha, cached, id, digest);
    }
  }

  lemma SummarySized(s: Summary)
    requires s.generation == s.itemCount == 100
    ensures ExactSize(Record(SummaryOp(s), [])) == Ok(88) && Varint.Image(100) == [0x64] && Varint.Size(100) == 1
  {
    ShortLength(100);
  }

  lemma CachedVector(sha: Hash, id: Octets32, digest: Octets32)
    ensures var s := Summary(id, 100, 100, digest);
            EncodeCompact(Record(SummaryOp(s), []), Candidate(sha, Some(s))) ==
              Ok([0xb2, 0x21, 0x02] + sha(BINDING_DOMAIN + id + [0, 0, 0, 0, 0, 0, 0, 100] + [0, 0, 0, 0, 0, 0, 0, 100] + digest))
  {
    hide Varint.Image, Varint.Size, Varint.LengthSize, BE64, ExactSize;
    var s := Summary(id, 100, 100, digest);
    var r, c := Record(SummaryOp(s), []), Candidate(sha, Some(s));
    SummarySized(s);
    ShortLength(33);
    BE64Of(100);
    assert BINDING_DOMAIN + B1Codec.PutSummary(s, []) == BINDING_DOMAIN + id + [0, 0, 0, 0, 0, 0, 0, 100] + [0, 0, 0, 0, 0, 0, 0, 100] + digest;
    assert EncodeCompact(r, c).value == [0xb2, 0x21, 0x02] + Binding(c, s);
  }

  lemma FullBody(sha: Hash, cached: Option<Summary>, id: Octets32, digest: Octets32)
    requires cached != Some(Summary(id, 100, 100, digest))
    ensures var r, c := Record(SummaryOp(Summary(id, 100, 100, digest)), []), Candidate(sha, cached);
            ExactSize(r).Ok? && BodySize(r, c) == Ok(67) && Body(r, c) == [0x01] + id + [0x64, 0x64] + digest
  {
    hide Varint.Image, Varint.Size, ExactSize, Binding;
    var s := Summary(id, 100, 100, digest);
    SummarySized(s);
    assert PutFullSummary(s, []) == id + [0x64, 0x64] + digest;
  }

  lemma FullVector(sha: Hash, cached: Option<Summary>, id: Octets32, digest: Octets32)
    requires cached != Some(Summary(id, 100, 100, digest))
    ensures EncodeCompact(Record(SummaryOp(Summary(id, 100, 100, digest)), []), Candidate(sha, cached)) ==
              Ok([0xb2, 0x43, 0x01] + id + [0x64, 0x64] + digest)
  {
    hide Varint.Image, Varint.LengthSize, ExactSize, BodySize, Body;
    var r := Record(SummaryOp(Summary(id, 100, 100, digest)), []);
    FullBody(sha, cached, id, digest);
    ShortLength(67);
    assert EncodeCompact(r, Candidate(sha, cached)).value == [0xb2, 0x43, 0x01] + id + [0x64, 0x64] + digest;
  }

  lemma BE64Of(n: byte)
    ensures BE64(n) == [0, 0, 0, 0, 0, 0, 0, n]
  {
  }

  /** What the malformed vectors are answered. */
  lemma RefusedVectors(supported: set<u32>, sha: Hash, cached: Option<Summary>, binding: Octets32, oversize: Bytes)
    requires |oversize| > 0x10_0000
    ensures var c := Candidate(sha, cached);
            && DecodeCompact([0xb1, 0x01], supported, c) == Err(Truncated)
            && DecodeCompact([0xb1, 0x02, 0x01], supported, c) == Err(Operations.Malformed("compact envelope length"))
            && DecodeCompact([0xb1, 0x81, 0x00, 0x01], supported, c) == Err(NonCanonical("varint"))
            && DecodeCompact(oversize, supported, c) == Err(Error.LimitExceeded("compact operation size"))
            && (cached.None? ==> DecodeCompact([0xb2, 0x21, 0x02] + binding, supported, c) == Err(Operations.Malformed("cached summary context")))
            && (cached.Some? && binding != Binding(c, cached.value) ==>
                  DecodeCompact([0xb2, 0x21, 0x02] + binding, supported, c) == Err(Operations.Malformed("cached summary binding")))
  {
    hide DecodeBody;
    assert [0xb1 as byte, 0x02, 0x01][1..] == [0x02, 0x01];
    Overlong();
    CachedBody(binding, supported, Candidate(sha, cached));
  }

  lemma Overlong()
    ensures Varint.Get([0xb1 as byte, 0x81, 0x00, 0x01][1..]) == Wire.Failed(NonCanonical("varint"))
  {
    var s: Bytes := [0x81, 0x00, 0x01];
    assert [0xb1 as byte, 0x81, 0x00, 0x01][1..] == s && s[1..] == [0x00, 0x01] && s[1..][1..] == [0x01];
    assert Varint.Scan(s[1..], 1) == Wire.Parsed(0, [0x01]);
    assert Varint.Scan(s, 0) == Wire.Parsed(1, [0x01]);
  }

  lemma CachedBody(binding: Octets32, supported: set<u32>, c: Context)
    ensures c.cached.None? ==>
              DecodeCompact([0xb2, 0x21, 0x02] + binding, supported, c) == Err(Operations.Malformed("cached summary context"))
    ensures c.cached.Some? && binding != Binding(c, c.cached.value) ==>
              DecodeCompact([0xb2, 0x21, 0x02] + binding, supported, c) == Err(Operations.Malformed("cached summary binding"))
  {
    var body := [0x02] + binding;
    ShortLength(33);
    CompactBijection.EnvelopeOpens(2, body);
    assert [0xb2, 0x21, 0x02] + binding == [HEADER_PREFIX + 2] + (Varint.Image(33) + body);
    assert body[1..] == binding;
    Wire.GotArray32(binding, []);
    assert binding + [] == binding;
  }

  /** The full form of the remembered summary is not its canonical form. */
  lemma RememberedInFull(supported: set<u32>, sha: Hash, id: Octets32, digest: Octets32)
    ensures DecodeCompact([0xb2, 0x43, 0x01] + id + [0x64, 0x64] + digest, supported, Candidate(sha, Some(Summary(id, 100, 100, digest)))) ==
              Err(NonCanonical("full cached summary"))
  {
    hide CompactBijection.AnsweredAcross, Varint.Image;
    var s := Summary(id, 100, 100, digest);
    var r := Record(SummaryOp(s), []);
    var a, b := Candidate(sha, None), Candidate(sha, Some(s));
    SummaryVectors(sha, None, id, digest);
    FullIsRefused(supported, r, a, b);
  }

  lemma FullIsRefused(supported: set<u32>, r: Record, a: Context, b: Context)
    requires CompactBijection.SameButCached(a, b) && a.cached.None? && EncodeCompact(r, a).Ok?
    requires r.extensions == [] && r.operation.SummaryOp? && b.cached == Some(r.operation.summary)
    ensures DecodeCompact(EncodeCompact(r, a).value, supported, b) == Err(NonCanonical("full cached summary"))
  {
    hide EncodeCompact, DecodeCompact;
    CompactBijection.AcrossContexts(r, supported, a, b);
  }
}
