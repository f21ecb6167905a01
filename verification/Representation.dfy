/** Representation descriptors, identities and whole-representation verification. */
module Representation {
  import opened Wrappers
  import opened Octets

  const MAX_OPERATION_OCTETS := 1_048_576
  const MAX_REPRESENTATION_OCTETS := 1_073_741_824
  const MAX_CODEC_PARAMETER_OCTETS := 1_024

  datatype Descriptor = Descriptor(
    representationId: Octets32,
    schemaFingerprint: Octets32,
    codecId: u32,
    codecRevision: u32,
    codecParameters: Bytes,
    encodedLength: u64,
    decodedLength: Option<u64>,
    contentDigest: Octets32,
    usefulnessExpiry: Option<u64>)
  {
    predicate Valid() {
      && |codecParameters| <= MAX_CODEC_PARAMETER_OCTETS
      && encodedLength <= MAX_REPRESENTATION_OCTETS
      && (decodedLength.Some? ==> decodedLength.value <= MAX_REPRESENTATION_OCTETS)
    }
  }

  /** Exact bytes together with the descriptor frozen before they are offered. */
  datatype Prepared = Prepared(descriptor: Descriptor, bytes: Bytes)

  const IDENTITY_DOMAIN: Bytes :=
    [66, 69, 77, 80, 73, 67, 45, 82, 69, 80, 82, 69, 83, 69, 78, 84, 65, 84, 73, 79, 78, 45, 73, 68, 45, 118, 48, 46, 49, 0]

  function IdentityImage(schema: Octets32, codecId: u32, revision: u32, parameters: Bytes, length: u64, digest: Octets32): Bytes
    requires |parameters| <= MAX_CODEC_PARAMETER_OCTETS
  {
    IDENTITY_DOMAIN + (schema + (BE32(codecId) + (BE32(revision) + (BE32(|parameters|) + (parameters + (BE64(length) + digest))))))
  }

  /** The hashed image names every identity field: distinct fields give distinct images. */
  lemma IdentityImageInjective(s: Octets32, c: u32, r: u32, p: Bytes, n: u64, d: Octets32,
                               s': Octets32, c': u32, r': u32, p': Bytes, n': u64, d': Octets32)
    requires |p| <= MAX_CODEC_PARAMETER_OCTETS && |p'| <= MAX_CODEC_PARAMETER_OCTETS
    requires IdentityImage(s, c, r, p, n, d) == IdentityImage(s', c', r', p', n', d')
    ensures s == s' && c == c' && r == r' && p == p' && n == n' && d == d'
  {
    var t4, t4' := p + (BE64(n) + d), p' + (BE64(n') + d');
    var t3, t3' := BE32(|p|) + t4, BE32(|p'|) + t4';
    var t2, t2' := BE32(r) + t3, BE32(r') + t3';
    var t1, t1' := BE32(c) + t2, BE32(c') + t2';
    ConcatInjective(IDENTITY_DOMAIN, s + t1, IDENTITY_DOMAIN, s' + t1');
    ConcatInjective(s, t1, s', t1');
    ConcatInjective(BE32(c), t2, BE32(c'), t2');
    ConcatInjective(BE32(r), t3, BE32(r'), t3');
    ConcatInjective(BE32(|p|), t4, BE32(|p'|), t4');
    BE32Injective(c, c');
    BE32Injective(r, r');
    BE32Injective(|p|, |p'|);
    ConcatInjective(p, BE64(n) + d, p', BE64(n') + d');
    ConcatInjective(BE64(n), d, BE64(n'), d');
    BE64Injective(n, n');
  }

  datatype ModelError = BoundExceeded(field: string)

  function RepresentationId(sha: Hash, schema: Octets32, codecId: u32, revision: u32, parameters: Bytes, length: u64, digest: Octets32)
    : Result<Octets32, ModelError>
  {
    if |parameters| > MAX_CODEC_PARAMETER_OCTETS then
      Err(BoundExceeded("codec_parameters"))
    else if length > MAX_REPRESENTATION_OCTETS then
      Err(BoundExceeded("encoded_length"))
    else
      Ok(sha(IdentityImage(schema, codecId, revision, parameters, length, digest)))
  }

  function Prepare(sha: Hash, bytes: Bytes, decodedLength: Option<u64>, schema: Octets32, codecId: u32, revision: u32,
                   parameters: Bytes, expiry: Option<u64>): Result<Prepared, ModelError>
  {
    if |bytes| > MAX_REPRESENTATION_OCTETS then
      Err(BoundExceeded("encoded_length"))
    else if |parameters| > MAX_CODEC_PARAMETER_OCTETS then
      Err(BoundExceeded("codec_parameters"))
    else if decodedLength.Some? && decodedLength.value > MAX_REPRESENTATION_OCTETS then
      Err(BoundExceeded("decoded_length"))
    else
      var digest := sha(bytes);
      var identifier :- RepresentationId(sha, schema, codecId, revision, parameters, |bytes|, digest);
      Ok(Prepared(Descriptor(identifier, schema, codecId, revision, parameters, |bytes|, decodedLength, digest, expiry), bytes))
  }

  /** Recompute length, digest and identity against the descriptor. */
  predicate Verify(sha: Hash, d: Descriptor, bytes: Bytes) {
    && d.Valid()
    && d.encodedLength == |bytes|
    && var digest := sha(bytes);
       var identifier := RepresentationId(sha, d.schemaFingerprint, d.codecId, d.codecRevision, d.codecParameters, d.encodedLength, digest);
       && identifier.Ok?
       && digest == d.contentDigest
       && identifier.value == d.representationId
  }

  /** Preparing always yields a representation that verifies, whatever the digest function is. */
  lemma PreparedVerifies(sha: Hash, bytes: Bytes, decodedLength: Option<u64>, schema: Octets32, codecId: u32, revision: u32,
                         parameters: Bytes, expiry: Option<u64>)
    ensures var r := Prepare(sha, bytes, decodedLength, schema, codecId, revision, parameters, expiry);
            && (r.Ok? <==> (&& |bytes| <= MAX_REPRESENTATION_OCTETS
                            && |parameters| <= MAX_CODEC_PARAMETER_OCTETS
                            && (decodedLength.Some? ==> decodedLength.value <= MAX_REPRESENTATION_OCTETS)))
            && (r.Ok? ==> r.value.bytes == bytes && Verify(sha, r.value.descriptor, bytes))
  {
  }

  /** Bytes that verify against one descriptor are the same bytes, unless the digest collides. */
  lemma VerifiedBytesAgree(sha: Hash, d: Descriptor, sent: Bytes, got: Bytes)
    requires Verify(sha, d, sent) && Verify(sha, d, got)
    ensures sha(got) == sha(sent) && |got| == |sent|
    ensures NoCollision(sha, sent) ==> got == sent
  {
  }

  /** One representation identity fixes schema, codec, parameters, length and content (barring a collision of its image). */
  lemma IdentityFixesContent(sha: Hash, a: Prepared, b: Prepared)
    requires Verify(sha, a.descriptor, a.bytes) && Verify(sha, b.descriptor, b.bytes)
    requires a.descriptor.representationId == b.descriptor.representationId
    requires NoCollision(sha, a.bytes)
    requires NoCollision(sha, IdentityImage(a.descriptor.schemaFingerprint, a.descriptor.codecId, a.descriptor.codecRevision,
                                            a.descriptor.codecParameters, a.descriptor.encodedLength, a.descriptor.contentDigest))
    ensures a.bytes == b.bytes
    ensures b.descriptor == a.descriptor.(decodedLength := b.descriptor.decodedLength, usefulnessExpiry := b.descriptor.usefulnessExpiry)
  {
    var p, q := a.descriptor, b.descriptor;
    IdentityImageInjective(
      q.schemaFingerprint, q.codecId, q.codecRevision, q.codecParameters, q.encodedLength, q.contentDigest,
      p.schemaFingerprint, p.codecId, p.codecRevision, p.codecParameters, p.encodedLength, p.contentDigest);
  }
}
