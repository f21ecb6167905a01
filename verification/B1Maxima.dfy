/** The declared maximum of each operation kind bounds every record of that kind and is reached by one. */
module B1Maxima {
  import opened Wrappers
  import opened Octets
  import opened Representation
  import opened Operations
  import opened B1Fields
  import opened B1Codec
  import opened B1Record

  datatype Kind = CapabilitiesKind | SummaryKind | OfferKind | RequestKind | DataKind | ReceiptKind | FailureKind

  function KindOf(op: Operation): Kind {
    match op
    case CapabilitiesOp(_) => CapabilitiesKind
    case SummaryOp(_) => SummaryKind
    case OfferOp(_) => OfferKind
    case RequestOp(_) => RequestKind
    case DataOp(_) => DataKind
    case ReceiptOp(_) => ReceiptKind
    case FailureOp(_) => FailureKind
  }

  function DeclaredMaximum(kind: Kind): nat {
    match kind
    case CapabilitiesKind => 34_362
    case SummaryKind => 33_080
    case OfferKind => 186_789
    case RequestKind => 39_186
    case DataKind => MAX_RECORD_OCTETS
    case ReceiptKind => 33_341
    case FailureKind => 33_326
  }

  const EXTENSION_FIELD_OCTETS := 4 + 1 + 2 + MAX_EXTENSION_VALUE_OCTETS
  const ENTRY_OCTETS := 1_200

  // ---- Upper bounds ----

  lemma {:induction false} ExtensionsBounded(es: seq<Extension>)
    requires WritableExtensions(es)
    ensures ExtensionsSize(es) <= |es| * EXTENSION_FIELD_OCTETS
  {
    if es != [] {
      ExtensionsBounded(es[1..]);
    }
  }

  lemma {:induction false} EntriesBounded(es: seq<Entry>)
    requires forall e | e in es :: e.Valid()
    ensures EntriesSize(es) <= |es| * ENTRY_OCTETS
  {
    if es != [] {
      EntriesBounded(es[1..]);
      assert es[0] in es;
    }
  }

  lemma OperationBounded(op: Operation)
    requires Validate(op).Pass? && !op.DataOp?
    ensures ENVELOPE_OCTETS + OperationSize(op) + 1 + MAX_EXTENSIONS * EXTENSION_FIELD_OCTETS <= DeclaredMaximum(KindOf(op))
  {
    if op.OfferOp? {
      ValidOfferMeans(op.offer);
      EntriesBounded(op.offer.descriptors);
    }
  }

  /** No encodable record exceeds the declared maximum of its kind. */
  lemma SizeWithinMaximum(r: Record)
    requires ExactSize(r).Ok?
    ensures ExactSize(r).value <= DeclaredMaximum(KindOf(r.operation))
  {
    hide Validate, OperationSize;
    if !r.operation.DataOp? {
      ExtensionsBounded(r.extensions);
      OperationBounded(r.operation);
    }
  }

  // ---- Records that reach the bounds ----

  function Zeros(n: nat): (z: Bytes)
    ensures |z| == n && forall b | b in z :: b == 0
  {
    seq(n, _ => 0)
  }

  /** A distinct identifier for each small number. */
  function Numbered(n: byte): (a: Octets32)
    ensures a[0] == n
  {
    [n] + Zeros(31)
  }

  function Letters(n: nat): (t: Bytes)
    ensures |t| == n
  {
    if n == 0 then [] else [97] + Letters(n - 1)
  }

  lemma {:induction false} LettersAreText(n: nat)
    ensures ValidUtf8(Letters(n)) && !HasControl(Letters(n))
  {
    if n > 0 {
      LettersAreText(n - 1);
      assert Letters(n)[1..] == Letters(n - 1);
    }
  }

  lemma {:induction false} ExtensionsUniform(es: seq<Extension>, size: nat)
    requires forall e | e in es :: |e.value| == size
    ensures ExtensionsSize(es) == |es| * (7 + size)
  {
    if es != [] {
      ExtensionsUniform(es[1..], size);
      assert |es| * (7 + size) == (7 + size) + |es[1..]| * (7 + size);
    }
  }

  lemma {:induction false} EntriesUniform(es: seq<Entry>, size: nat)
    requires forall e | e in es :: EntrySize(e) == size
    ensures EntriesSize(es) == |es| * size
  {
    if es != [] {
      EntriesUniform(es[1..], size);
      assert |es| * size == size + |es[1..]| * size;
    }
  }

  function FullExtension(id: u32): (e: Extension)
    ensures e.id == id && |e.value| == MAX_EXTENSION_VALUE_OCTETS
  {
    Extension(id, true, Zeros(MAX_EXTENSION_VALUE_OCTETS))
  }

  /** The largest permitted extension set. */
  function FullExtensions(): (es: seq<Extension>)
    ensures ValidateExtensions(es).Pass? && |es| == MAX_EXTENSIONS
    ensures forall e | e in es :: |e.value| == MAX_EXTENSION_VALUE_OCTETS
  {
    var es := seq(MAX_EXTENSIONS, i requires 0 <= i < MAX_EXTENSIONS => FullExtension(i));
    assert forall i | 0 <= i < |es| :: es[i] == FullExtension(i);
    es
  }

  lemma Filled(op: Operation)
    requires Validate(op).Pass?
    requires ENVELOPE_OCTETS + OperationSize(op) + 1 + MAX_EXTENSIONS * EXTENSION_FIELD_OCTETS == DeclaredMaximum(KindOf(op))
    ensures ExactSize(Record(op, FullExtensions())) == Ok(DeclaredMaximum(KindOf(op)))
  {
    hide Validate, OperationSize;
    ExtensionsUniform(FullExtensions(), MAX_EXTENSION_VALUE_OCTETS);
  }

  function LargestCapabilities(): Capabilities {
    Capabilities(
      seq(MAX_CAPABILITY_PROTOCOLS, i requires 0 <= i < MAX_CAPABILITY_PROTOCOLS => Generation(i, 0)),
      seq(MAX_CAPABILITY_SCHEMAS, i requires 0 <= i < MAX_CAPABILITY_SCHEMAS => Numbered(i)),
      seq(MAX_CAPABILITY_CODECS, i requires 0 <= i < MAX_CAPABILITY_CODECS => CodecPreference(i, 0, Numbered(i))),
      1, 1, 0, Public,
      seq(MAX_EXTENSIONS, i requires 0 <= i < MAX_EXTENSIONS => ExtensionDeclaration(i, false)))
  }

  lemma LargestCapabilitiesValid()
    ensures ValidateCapabilities(LargestCapabilities()).Pass?
  {
    var c := LargestCapabilities();
    assert forall i, j | 0 <= i < j < |c.schemas| :: c.schemas[i][0] != c.schemas[j][0];
    assert forall i, j | 0 <= i < j < |c.codecs| :: c.codecs[i].codecId != c.codecs[j].codecId;
    assert forall i, j | 0 <= i < j < |c.generations| :: c.generations[i].major != c.generations[j].major;
    forall p | p in c.codecs
      ensures p.schema in c.schemas
    {
      var i :| 0 <= i < |c.codecs| && c.codecs[i] == p;
      assert c.schemas[i] == p.schema;
    }
  }

  function LargestEntry(n: byte): (e: Entry)
    ensures e.Valid() && e.sequence == n + 1 && e.partId == n && e.objectId == Zeros(32) && EntrySize(e) == ENTRY_OCTETS
  {
    Entry(n + 1, Zeros(32), n, Descriptor(Zeros(32), Zeros(32), 0, 0, Zeros(MAX_CODEC_PARAMETER_OCTETS), 0, Some(0), Zeros(32), Some(0)))
  }

  function LargestOffer(): (o: Offer)
    ensures o.mode == Full && |o.descriptors| == MAX_OFFER_DESCRIPTORS
    ensures forall i | 0 <= i < MAX_OFFER_DESCRIPTORS :: o.descriptors[i] == LargestEntry(i)
    ensures o.firstCursor == CursorAt(Full, o.descriptors[0])
    ensures o.lastCursor == CursorAt(Full, o.descriptors[MAX_OFFER_DESCRIPTORS - 1])
    ensures o.baseGeneration == 0 && o.targetGeneration == MAX_OFFER_DESCRIPTORS
  {
    var entries := seq(MAX_OFFER_DESCRIPTORS, i requires 0 <= i < MAX_OFFER_DESCRIPTORS => LargestEntry(i));
    Offer(Zeros(32), Full, 0, MAX_OFFER_DESCRIPTORS, CursorAt(Full, entries[0]), CursorAt(Full, entries[MAX_OFFER_DESCRIPTORS - 1]), entries, false)
  }

  lemma LargestOfferValid()
    ensures ValidateOffer(LargestOffer()).Pass?
  {
    var o := LargestOffer();
    assert GoodEntries(o.descriptors, o.targetGeneration);
    forall i | 0 < i < |o.descriptors|
      ensures Before(Full, o.descriptors[i - 1], o.descriptors[i])
    {
      assert o.descriptors[i - 1] == LargestEntry(i - 1) && o.descriptors[i] == LargestEntry(i);
    }
    ValidOfferMeans(o);
  }

  lemma LargestOfferSize()
    ensures ENVELOPE_OCTETS + OperationSize(OfferOp(LargestOffer())) + 1 + MAX_EXTENSIONS * EXTENSION_FIELD_OCTETS == DeclaredMaximum(OfferKind)
  {
    hide LargestEntry, EntriesSize;
    EntriesUniform(LargestOffer().descriptors, ENTRY_OCTETS);
  }

  lemma LargestOfferFills()
    ensures ExactSize(Record(OfferOp(LargestOffer()), FullExtensions())) == Ok(DeclaredMaximum(OfferKind))
  {
    hide ValidateOffer, LargestEntry, ExactSize, OperationSize;
    LargestOfferValid();
    LargestOfferSize();
    Filled(OfferOp(LargestOffer()));
  }

  lemma LargestCapabilitiesFill()
    ensures ExactSize(Record(CapabilitiesOp(LargestCapabilities()), FullExtensions())) == Ok(DeclaredMaximum(CapabilitiesKind))
  {
    LargestCapabilitiesValid();
    Filled(CapabilitiesOp(LargestCapabilities()));
  }

  function LargestRequest(): (q: DataRequest)
    ensures ValidateDataRequest(q).Pass? && |q.selections| == MAX_REQUEST_SELECTIONS
  {
    var selections := seq(MAX_REQUEST_SELECTIONS, i requires 0 <= i < MAX_REQUEST_SELECTIONS => Selection(Numbered(i), 0, 1));
    assert forall i, j | 0 <= i < j < |selections| :: selections[i].representationId[0] != selections[j].representationId[0];
    DataRequest(Zeros(16), 1, 1, 1, selections)
  }

  function LargestData(): (r: Record)
    ensures r.operation.DataOp? && ExactSize(r) == Ok(MAX_RECORD_OCTETS)
  {
    Record(DataOp(Data(Zeros(32), 0, Zeros(MAX_RECORD_OCTETS - ENVELOPE_OCTETS - 32 - 8 - 4 - 1))), [])
  }

  /** Some record of every kind is exactly as large as its kind declares. */
  lemma MaximumAttained(kind: Kind) returns (r: Record)
    ensures KindOf(r.operation) == kind && ExactSize(r) == Ok(DeclaredMaximum(kind))
    ensures kind != DataKind ==> r.extensions != []
  {
    LettersAreText(MAX_FAILURE_DETAIL_OCTETS);
    var text: Text := Letters(MAX_FAILURE_DETAIL_OCTETS);
    match kind {
      case CapabilitiesKind =>
        LargestCapabilitiesFill();
        r := Record(CapabilitiesOp(LargestCapabilities()), FullExtensions());
      case SummaryKind =>
        r := Record(SummaryOp(Summary(Zeros(32), 0, 0, Zeros(32))), FullExtensions());
        Filled(r.operation);
      case OfferKind =>
        LargestOfferFills();
        r := Record(OfferOp(LargestOffer()), FullExtensions());
      case RequestKind =>
        r := Record(RequestOp(RepresentationData(LargestRequest())), FullExtensions());
        Filled(r.operation);
      case DataKind =>
        r := LargestData();
      case ReceiptKind =>
        r := Record(ReceiptOp(Receipt(Zeros(32), RepresentationCommitted, Some(Zeros(32)), Zeros(16), Some(text))), FullExtensions());
        Filled(r.operation);
      case FailureKind =>
        r := Record(FailureOp(Failure(FailureCode.MetadataConflict, Zeros(MAX_FAILURE_SCOPE_OCTETS), false, Some(text))), FullExtensions());
        Filled(r.operation);
    }
  }
}
