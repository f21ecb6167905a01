/** What the bounds checks of operations and records let pass, stated without following the checks. */
module Validity {
  import opened Wrappers
  import opened Octets
  import opened Representation
  import opened Operations
  import opened B1Record
  import B1Codec
  import Texts

  ghost predicate NoTwice<T>(s: seq<T>) {
    forall x | x in s :: multiset(s)[x] == 1
  }

  lemma {:induction false} DistinctMeans<T>(s: seq<T>)
    ensures Distinct(s) <==> NoTwice(s)
  {
    if s != [] {
      assert s == [s[0]] + s[1..];
      DistinctMeans(s[1..]);
      if Distinct(s) {
        assert forall i, j | 0 <= i < j < |s[1..]| :: s[1..][i] != s[1..][j] by {
          assert forall i | 0 <= i < |s[1..]| :: s[1..][i] == s[i + 1];
        }
        assert s[0] !in s[1..];
      }
      if NoTwice(s) {
        assert s[0] in s && multiset(s) == multiset([s[0]]) + multiset(s[1..]);
        forall x | x in s[1..]
          ensures multiset(s[1..])[x] == 1
        {
          assert x in s;
        }
        forall i, j | 0 <= i < j < |s|
          ensures s[i] != s[j]
        {
          if i > 0 {
            assert s[i] == s[1..][i - 1];
          }
          assert s[j] == s[1..][j - 1] && s[1..][j - 1] in multiset(s[1..]);
        }
      }
    }
  }

  /** A reason or detail: absent, or at most 256 octets of text without controls. */
  ghost predicate Clean(text: Option<Text>) {
    text.Some? ==> |text.value| <= 256 && forall cs | Texts.Spells(cs, text.value) :: forall c | c in cs :: !Texts.Control(c)
  }

  ghost predicate Bounded(d: Descriptor) {
    && |d.codecParameters| <= 1_024 && d.encodedLength <= 0x4000_0000
    && (d.decodedLength.Some? ==> d.decodedLength.value <= 0x4000_0000)
  }

  /** What the protocol lets an operation be. */
  ghost predicate Acceptable(op: Operation) {
    match op
    case CapabilitiesOp(c) =>
      && 1 <= |c.generations| <= 8 && NoTwice(c.generations)
      && 1 <= |c.schemas| <= 16 && NoTwice(c.schemas)
      && 1 <= |c.codecs| <= 16 && NoTwice(c.codecs) && (forall p | p in c.codecs :: p.schema in c.schemas)
      && |c.extensions| <= 32 && (forall i, j | 0 <= i < j < |c.extensions| :: c.extensions[i].id != c.extensions[j].id)
      && 1 <= c.maxOperationOctets <= 0x10_0000 && 1 <= c.maxDataPayloadOctets <= 0x4000_0000
    case SummaryOp(s) => s.itemCount <= 1_000_000 && s.itemCount <= s.generation
    case OfferOp(o) =>
      && 1 <= |o.descriptors| <= 128 && o.baseGeneration <= o.targetGeneration
      && (forall e | e in o.descriptors :: 1 <= e.sequence <= o.targetGeneration && Bounded(e.descriptor))
      && (forall i, j | 0 <= i < j < |o.descriptors| ::
            && o.descriptors[i].sequence != o.descriptors[j].sequence && o.descriptors[i].Key() != o.descriptors[j].Key()
            && if o.mode == Delta then o.descriptors[i].sequence < o.descriptors[j].sequence
               else KeyLess(o.descriptors[i].Key(), o.descriptors[j].Key()))
      && o.firstCursor == CursorAt(o.mode, o.descriptors[0]) && o.lastCursor == CursorAt(o.mode, o.descriptors[|o.descriptors| - 1])
    case RequestOp(InventoryPage(p)) => 1 <= p.pageEntryLimit <= 128 && (p.mode == Delta <==> p.committedCursor.DeltaCursor?)
    case RequestOp(RepresentationData(q)) =>
      && 1 <= |q.selections| <= 128 && (forall i, j | 0 <= i < j < |q.selections| :: q.selections[i].representationId != q.selections[j].representationId)
      && 0 < q.maxTotal && q.maxSenderToReceiver <= q.maxTotal && q.maxReceiverToSender <= q.maxTotal
      && (forall s | s in q.selections :: 1 <= s.maxDesiredPayloadOctets <= 0x4000_0000 && s.durablePrefixOffset <= 0x4000_0000)
    case DataOp(d) => 1 <= |d.payload| && d.offset + |d.payload| <= 0x4000_0000
    case ReceiptOp(r) => Clean(r.reason) && (r.status == RepresentationCommitted ==> r.verifiedDigest.Some?)
    case FailureOp(f) => |f.scope| <= 64 && Clean(f.detail)
  }

  ghost predicate AcceptableExtensions(s: seq<Extension>) {
    && |s| <= 32 && (forall e | e in s :: |e.value| <= 1_024)
    && forall i, j | 0 <= i < j < |s| :: s[i].id != s[j].id
  }

  lemma CleanMeans(text: Option<Text>, field: string)
    ensures ValidateText(text, 256, field).Pass? <==> Clean(text)
  {
    if text.Some? {
      var cs := Texts.AcceptedIsText(text.value);
      Texts.TextIsAccepted(cs);
      forall other | Texts.Spells(other, text.value)
        ensures (forall c | c in other :: !Texts.Control(c)) <==> !HasControl(text.value)
      {
        Texts.TextIsAccepted(other);
      }
    }
  }

  lemma {:induction false} AscendingMeans(mode: OfferMode, s: seq<Entry>)
    ensures Ascending(mode, s) <==> forall i, j | 0 <= i < j < |s| :: Before(mode, s[i], s[j])
  {
    if Ascending(mode, s) && |s| > 1 {
      var front := s[..|s| - 1];
      AscendingMeans(mode, front);
      forall i, j | 0 <= i < j < |s|
        ensures Before(mode, s[i], s[j])
      {
        if j < |front| {
          assert Before(mode, front[i], front[j]);
        } else if i < j - 1 {
          assert Before(mode, front[i], front[j - 1]) && Before(mode, s[j - 1], s[j]);
          if mode == Full {
            KeyTransitive(s[i].Key(), s[j - 1].Key(), s[j].Key());
          }
        }
      }
    }
  }

  lemma ValidCapabilitiesMean(c: Capabilities)
    ensures ValidateCapabilities(c).Pass? <==> Acceptable(CapabilitiesOp(c))
  {
    hide NoTwice, Distinct;
    DistinctMeans(c.generations);
    DistinctMeans(c.schemas);
    DistinctMeans(c.codecs);
  }

  lemma ValidPageMeans(o: Offer)
    ensures ValidateOffer(o).Pass? <==> Acceptable(OfferOp(o))
  {
    hide ValidateOffer, LexLess;
    ValidOfferMeans(o);
    AscendingMeans(o.mode, o.descriptors);
  }

  /** An operation passes its check exactly if it is acceptable. */
  lemma ValidOperationMeans(op: Operation)
    ensures Validate(op).Pass? <==> Acceptable(op)
  {
    hide NoTwice, ValidateCapabilities, ValidateOffer, ValidateText, Clean;
    match op
    case CapabilitiesOp(c) => ValidCapabilitiesMean(c);
    case OfferOp(o) => ValidPageMeans(o);
    case ReceiptOp(r) => CleanMeans(r.reason, "receipt reason");
    case FailureOp(f) => CleanMeans(f.detail, "failure detail");
    case _ =>
  }

  /** A record is encoded exactly if its operation and its extensions are acceptable and it stays within 2^20 octets. */
  lemma EncodableMeans(r: Record)
    ensures Encode(r).Ok? <==>
              && Acceptable(r.operation) && AcceptableExtensions(r.extensions)
              && B1Codec.ENVELOPE_OCTETS + OperationSize(r.operation) + 1 + ExtensionsSize(r.extensions) <= 0x10_0000
  {
    hide Validate, Acceptable, OperationSize, ExtensionsSize;
    ValidOperationMeans(r.operation);
    EncodedSizeIsExact(r);
  }
}
