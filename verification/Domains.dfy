/** No two kinds of digest are ever taken over the same octets, and a receipt names one representation. */
module Domains {
  import opened Octets
  import opened Representation
  import opened Operations
  import B1Codec
  import Checkpoints
  import CompactCodec
  import ContactPhases

  /** The octets digested for identities, checkpoints, remembered summaries and receipts start differently. */
  lemma ImagesAreSeparate(schema: Octets32, codecId: u32, revision: u32, parameters: Bytes, length: u64, digest: Octets32,
                          collection: Octets32, generation: u64, entries: seq<Entry>, summary: Summary, subject: Octets32)
    requires |parameters| <= MAX_CODEC_PARAMETER_OCTETS && |entries| <= MAX_COLLECTION_ENTRIES
    ensures var identity := IdentityImage(schema, codecId, revision, parameters, length, digest);
            var checkpoint := Checkpoints.CollectionImage(collection, generation, entries);
            var binding := CompactCodec.BINDING_DOMAIN + B1Codec.PutSummary(summary, []);
            var receipt := ContactPhases.RECEIPT_DOMAIN + subject;
            && identity != checkpoint && identity != binding && identity != receipt
            && checkpoint != binding && checkpoint != receipt && binding != receipt
  {
    hide Checkpoints.KeysImage, B1Codec.PutSummary, BE32, BE64;
    var identity := IdentityImage(schema, codecId, revision, parameters, length, digest);
    var checkpoint := Checkpoints.CollectionImage(collection, generation, entries);
    var binding := CompactCodec.BINDING_DOMAIN + B1Codec.PutSummary(summary, []);
    var receipt := ContactPhases.RECEIPT_DOMAIN + subject;
    assert identity[7] == receipt[7] == 82 && checkpoint[7] == binding[7] == 67;
    assert identity[9] == 80 && receipt[9] == 70 && checkpoint[9] == 76 && binding[9] == 77;
  }

  /** Only this octet string has a digest that starts with these 16 octets. */
  ghost predicate NoShortCollision(sha: Hash, s: Bytes) {
    forall t: Bytes :: sha(t)[..16] == sha(s)[..16] ==> t == s
  }

  /** Receipts of different representations have different identifiers (barring a collision of the shortened digest). */
  lemma ReceiptNamesRepresentation(sha: Hash, id: Octets32, other: Octets32)
    requires NoShortCollision(sha, ContactPhases.RECEIPT_DOMAIN + id)
    requires ContactPhases.ReceiptId(sha, other) == ContactPhases.ReceiptId(sha, id)
    ensures other == id
  {
    var x, y := ContactPhases.RECEIPT_DOMAIN + id, ContactPhases.RECEIPT_DOMAIN + other;
    assert x == y;
    assert x[|ContactPhases.RECEIPT_DOMAIN|..] == id && y[|ContactPhases.RECEIPT_DOMAIN|..] == other;
  }
}
