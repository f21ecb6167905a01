/** The phases of a contact: negotiation, offer, request, data, verification and commit, and receipt, each under one carrier. */
module ContactPhases {
  import opened Wrappers
  import opened Octets
  import opened Representation
  import opened Operations
  import B1Fields
  import opened B1Codec
  import opened B1Record
  import opened B1Maxima
  import opened Carriers
  import opened Accounts
  import opened Submission
  import opened Endpoints
  import Checkpoints
  import EntryOrder
  import Negotiation
  import ProtocolSpec
  import ProtocolStores
  import Reconciliation
  import Spec = RepresentationSpec

  const COLLECTION_ID: Octets32 :=
    [0x43, 0x43, 0x43, 0x43, 0x43, 0x43, 0x43, 0x43, 0x43, 0x43, 0x43, 0x43, 0x43, 0x43, 0x43, 0x43,
     0x43, 0x43, 0x43, 0x43, 0x43, 0x43, 0x43, 0x43, 0x43, 0x43, 0x43, 0x43, 0x43, 0x43, 0x43, 0x43]
  const OBJECT_SEED: Bytes :=
    [98, 101, 109, 112, 105, 99, 45, 118, 48, 49, 45, 105, 110, 116, 101, 103, 114, 97, 116, 101, 100, 45, 98, 111, 100, 121]
  const RECEIPT_DOMAIN: Bytes :=
    [66, 69, 77, 80, 73, 67, 45, 82, 69, 70, 69, 82, 69, 78, 67, 69, 45, 82, 69, 67, 69, 73, 80, 84, 45, 118, 48, 46, 49, 0]
  const NEGOTIATION_LIFETIME := 86_400

  function ReceiptId(sha: Hash, id: Octets32): Octets16 {
    sha(RECEIPT_DOMAIN + id)[..16]
  }

  function ExperimentalCapabilities(d: Descriptor, carrierLimit: u64): Capabilities {
    Capabilities(
      [Generation(0, 1)],
      [d.schemaFingerprint],
      [CodecPreference(d.codecId, d.codecRevision, d.schemaFingerprint)],
      Min(carrierLimit, MAX_RECORD_OCTETS),
      if d.encodedLength == 0 then 1 else d.encodedLength,
      15,
      Public,
      [])
  }

  function CollectionEntry(sha: Hash, d: Descriptor): Entry {
    Entry(1, sha(OBJECT_SEED), 1, d)
  }

  function SoleOffer(sha: Hash, d: Descriptor): Offer {
    var entry := CollectionEntry(sha, d);
    Offer(COLLECTION_ID, Full, 0, 1, FullCursor(entry.Key()), FullCursor(entry.Key()), [entry], false)
  }

  // ---- Records of the data exchange ----

  const CAPABILITIES_OCTETS := 102
  const SUMMARY_OCTETS := 88
  const REQUEST_OCTETS := 98
  const DATA_OVERHEAD := 52
  const RECEIPT_OCTETS := 91

  function OfferOctets(d: Descriptor): nat {
    357 + |d.codecParameters| + (if d.decodedLength.Some? then 8 else 0) + (if d.usefulnessExpiry.Some? then 8 else 0)
  }

  lemma CapabilitiesSize(d: Descriptor, carrierLimit: u64)
    requires d.Valid() && carrierLimit > 0
    ensures ValidateCapabilities(ExperimentalCapabilities(d, carrierLimit)).Pass?
    ensures ExactSize(Record(CapabilitiesOp(ExperimentalCapabilities(d, carrierLimit)), [])) == Ok(CAPABILITIES_OCTETS)
  {
    var c := ExperimentalCapabilities(d, carrierLimit);
    assert forall p | p in c.codecs :: p.schema in c.schemas;
  }

  lemma SoleEntryIsGood(sha: Hash, d: Descriptor)
    requires d.Valid()
    ensures GoodEntries([CollectionEntry(sha, d)], 1)
  {
  }

  lemma OfferSize(sha: Hash, d: Descriptor)
    requires d.Valid()
    ensures ExactSize(Record(OfferOp(SoleOffer(sha, d)), [])) == Ok(OfferOctets(d))
  {
    var o := SoleOffer(sha, d);
    SoleEntryIsGood(sha, d);
    ValidOfferMeans(o);
    assert o.descriptors[1..] == [];
    assert B1Fields.EntriesSize(o.descriptors) == B1Fields.EntrySize(o.descriptors[0]);
  }

  lemma SummarySize(sha: Hash, d: Descriptor)
    requires d.Valid()
    ensures var summary := Checkpoints.CollectionCheckpoint(sha, COLLECTION_ID, 1, [CollectionEntry(sha, d)]);
            summary.Ok? && ExactSize(Record(SummaryOp(summary.value), [])) == Ok(SUMMARY_OCTETS)
  {
    var entries := [CollectionEntry(sha, d)];
    assert entries[1..] == [];
    assert Checkpoints.UpTo(1, entries) == entries;
    assert EntryOrder.Sort(Delta, []) == [] && EntryOrder.Sort(Delta, entries) == entries;
    assert !Checkpoints.AdjacentSequencesEqual(entries);
    Checkpoints.CheckKeysMeans(entries, 0);
    assert entries[0].Valid();
    Checkpoints.CheckpointIsValid(sha, COLLECTION_ID, 1, entries);
  }

  /** What a contact offers is what the authority over this one entry answers a receiver without a checkpoint. */
  lemma SoleOfferIsThePage(sha: Hash, d: Descriptor, octets: nat)
    requires d.Valid() && OfferOctets(d) <= octets
    ensures var entries := [CollectionEntry(sha, d)];
            var summary := Checkpoints.CollectionCheckpoint(sha, COLLECTION_ID, 1, entries);
            summary.Ok? && Reconciliation.ReplyTo(summary.value, [], entries, None, None, 1, octets) == Ok(Reconciliation.Page(SoleOffer(sha, d)))
  {
    hide ExactSize, Checkpoints.CollectionCheckpoint;
    SummarySize(sha, d);
    OfferSize(sha, d);
    SoleEntryIsGood(sha, d);
    var entries, o := [CollectionEntry(sha, d)], SoleOffer(sha, d);
    var summary := Checkpoints.CollectionCheckpoint(sha, COLLECTION_ID, 1, entries).value;
    Checkpoints.CheckpointCounts(sha, COLLECTION_ID, 1, entries);
    ValidOfferMeans(o);
    ValidOfferMeans(o.(more := true));
    Reconciliation.MoreTakesNoOctet(o, true);
    assert entries[1..] == [] && entries[..1] == entries;
    assert EntryOrder.Sort(Full, []) == [] && EntryOrder.Sort(Full, entries) == entries;
    assert Reconciliation.Retain(Full, None, entries[1..]) == [] && Reconciliation.Retain(Full, None, entries) == entries;
    assert Reconciliation.MakeOffer(summary, Full, 0, entries, true) == Ok(o.(more := true));
    assert Reconciliation.PageLength(summary, Full, 0, entries, 1, octets, 1) == Ok(1);
    assert Reconciliation.PageLength(summary, Full, 0, entries, 1, octets, 0) == Ok(1);
  }

  /** One suffix of one representation, under one budget for both directions together and for each alone. */
  function Request(d: Descriptor, budgetId: Octets16, budget: u64, prefix: u64, desired: u64): DataRequest {
    DataRequest(budgetId, budget, budget, budget, [Selection(d.representationId, prefix, desired)])
  }

  /** Data that fits a record by itself. */
  predicate Carriable(data: Data) {
    data.payload != [] && data.offset + |data.payload| <= MAX_REPRESENTATION_OCTETS && DATA_OVERHEAD + |data.payload| <= MAX_RECORD_OCTETS
  }

  lemma RequestSize(d: Descriptor, budgetId: Octets16, budget: u64, prefix: u64, desired: u64)
    requires 0 < desired <= MAX_REPRESENTATION_OCTETS && prefix <= MAX_REPRESENTATION_OCTETS
    ensures ExactSize(Record(RequestOp(RepresentationData(Request(d, budgetId, budget, prefix, desired))), [])) ==
              if budget == 0 then Err(Error.LimitExceeded("representation data request")) else Ok(REQUEST_OCTETS)
  {
    var q := Request(d, budgetId, budget, prefix, desired);
    assert q.selections[0] in q.selections;
  }

  lemma DataSize(data: Data)
    ensures ExactSize(Record(DataOp(data), [])).Ok? <==> Carriable(data)
    ensures Carriable(data) ==> ExactSize(Record(DataOp(data), [])) == Ok(DATA_OVERHEAD + |data.payload|)
  {
  }

  /** How much payload one DATA record may carry: what is missing, negotiated, fits the record and leaves room for the request. */
  function PayloadLimit(missing: nat, negotiated: nat, recordLimit: nat, budget: nat): (n: nat)
    ensures n <= missing && n <= negotiated
    ensures n > 0 ==> n + DATA_OVERHEAD <= recordLimit && n + DATA_OVERHEAD + REQUEST_OCTETS <= budget
  {
    Min(Min(missing, negotiated), Min(Less(recordLimit, DATA_OVERHEAD), Less(budget, REQUEST_OCTETS + DATA_OVERHEAD)))
  }

  function Less(a: nat, b: nat): nat {
    if a <= b then 0 else a - b
  }

  /** The limit is the best possible: one octet more would break one of the four bounds. */
  lemma PayloadLimitIsTight(missing: nat, negotiated: nat, recordLimit: nat, budget: nat)
    ensures var n := PayloadLimit(missing, negotiated, recordLimit, budget) + 1;
            n > missing || n > negotiated || n + DATA_OVERHEAD > recordLimit || n + DATA_OVERHEAD + REQUEST_OCTETS > budget
  {
  }

  function ValidateSelection(s: Selection, offered: nat): Outcome<FailureCode> {
    if || offered > MAX_REPRESENTATION_OCTETS
       || s.durablePrefixOffset > MAX_REPRESENTATION_OCTETS
       || s.maxDesiredPayloadOctets == 0
       || s.maxDesiredPayloadOctets > MAX_REPRESENTATION_OCTETS
       || s.durablePrefixOffset > offered
       || s.maxDesiredPayloadOctets > offered - s.durablePrefixOffset
    then Fail(RangeInvalid) else Pass
  }

  /** Selections in order against the offered lengths, stopping at the first failure. */
  function ValidateSelections(selections: seq<Selection>, seen: set<Octets32>, offered: map<Octets32, u64>): Outcome<FailureCode> {
    if selections == [] then
      Pass
    else
      var s := selections[0];
      if s.representationId in seen then Fail(FailureCode.MetadataConflict)
      else if s.representationId !in offered then Fail(UnknownObject)
      else
        var valid := ValidateSelection(s, offered[s.representationId]);
        if valid.Fail? then valid else ValidateSelections(selections[1..], seen + {s.representationId}, offered)
  }

  function ValidateRequest(request: DataRequest, offered: map<Octets32, u64>): Outcome<FailureCode> {
    if request.selections == [] || |request.selections| > MAX_REQUEST_SELECTIONS then Fail(FailureCode.LimitExceeded)
    else ValidateSelections(request.selections, {}, offered)
  }

  /** A selection of an offered representation: some of what follows the prefix, no further than its length. */
  ghost predicate InRange(s: Selection, offered: nat) {
    s.durablePrefixOffset < s.durablePrefixOffset + s.maxDesiredPayloadOctets <= offered <= MAX_REPRESENTATION_OCTETS
  }

  /** A selection that stands in a request at `i`, with nothing wrong before it. */
  ghost predicate Sound(selections: seq<Selection>, i: nat, seen: set<Octets32>, offered: map<Octets32, u64>) {
    && i < |selections|
    && selections[i].representationId !in seen && (forall j | 0 <= j < i :: selections[j].representationId != selections[i].representationId)
    && selections[i].representationId in offered && InRange(selections[i], offered[selections[i].representationId])
  }

  /** The first selection that is not sound decides, and its fault is the answer. */
  lemma {:induction false} SelectionsAnswer(selections: seq<Selection>, seen: set<Octets32>, offered: map<Octets32, u64>) returns (k: nat)
    ensures k <= |selections| && (forall i | 0 <= i < k :: Sound(selections, i, seen, offered)) && !Sound(selections, k, seen, offered)
    ensures var r := ValidateSelections(selections, seen, offered);
            && (r.Pass? <==> k == |selections|)
            && (k < |selections| ==>
                  var id := selections[k].representationId;
                  r == Fail(if id in seen || exists j | 0 <= j < k :: selections[j].representationId == id then FailureCode.MetadataConflict
                            else if id !in offered then UnknownObject else RangeInvalid))
  {
    k := 0;
    if selections != [] && Sound(selections, 0, seen, offered) {
      var rest := selections[1..];
      k := SelectionsAnswer(rest, seen + {selections[0].representationId}, offered);
      forall i | 0 < i <= k + 1
        ensures Sound(selections, i, seen, offered) <==> Sound(rest, i - 1, seen + {selections[0].representationId}, offered)
      {
        SoundBehindFirst(selections, i, seen, offered);
      }
      if k < |rest| {
        assert rest[k] == selections[k + 1];
        assert (exists j | 0 <= j < k + 1 :: selections[j].representationId == rest[k].representationId) <==>
               rest[k].representationId == selections[0].representationId
               || exists j | 0 <= j < k :: rest[j].representationId == rest[k].representationId by {
          assert forall j | 0 <= j < k :: rest[j] == selections[j + 1];
        }
      }
      k := k + 1;
    }
  }

  lemma SoundBehindFirst(selections: seq<Selection>, i: nat, seen: set<Octets32>, offered: map<Octets32, u64>)
    requires selections != [] && i > 0
    ensures Sound(selections, i, seen, offered) <==> Sound(selections[1..], i - 1, seen + {selections[0].representationId}, offered)
  {
    var rest := selections[1..];
    assert forall j | 0 <= j < |rest| :: rest[j] == selections[j + 1];
  }

  /** A request passes exactly if it has 1 to 128 selections, none twice, each of something offered and within its length. */
  lemma ValidRequestMeans(request: DataRequest, offered: map<Octets32, u64>)
    ensures ValidateRequest(request, offered).Pass? <==>
              && 1 <= |request.selections| <= 128
              && (forall i, j | 0 <= i < j < |request.selections| :: request.selections[i].representationId != request.selections[j].representationId)
              && (forall s | s in request.selections :: s.representationId in offered && InRange(s, offered[s.representationId]))
  {
    var selections := request.selections;
    var k := SelectionsAnswer(selections, {}, offered);
    if k < |selections| {
      assert selections[k] in selections;
    } else {
      forall s | s in selections
        ensures s.representationId in offered && InRange(s, offered[s.representationId])
      {
        var i :| 0 <= i < |selections| && selections[i] == s;
        assert Sound(selections, i, {}, offered);
      }
      forall i, j | 0 <= i < j < |selections|
        ensures selections[i].representationId != selections[j].representationId
      {
        assert Sound(selections, j, {}, offered);
      }
    }
  }

  // ---- Negotiation ----

  /** Nothing is said about payload or stored octets. */
  ghost predicate SamePayload(a: Accounting, b: Accounting) {
    SameStored(a, b) && a.payloadSubmitted == b.payloadSubmitted && a.payloadDelivered == b.payloadDelivered
  }

  /** The link is up for good and takes records up to this size and this many octets in all. */
  predicate Admits(carrier: DeterministicCarrier, profile: Option<Negotiation.Profile>, largest: nat, octets: nat)
    reads carrier
  {
    && carrier.config.disconnectAfterMs.None? && !carrier.disconnected
    && largest <= RecordLimit(carrier.config, profile) && octets <= carrier.Remaining()
  }

  /** Submits a record that carries no payload and is not mutated; the operation that arrives, if any, is the submitted one. */
  method Send(carrier: DeterministicCarrier, profile: Option<Negotiation.Profile>, op: Operation, direction: Direction, account: Accounting)
    returns (r: Result<Option<Operation>, ContactError>, a: Accounting)
    requires carrier.Valid() && Booked(account, carrier.events) && !op.DataOp? && Travels(KindOf(op), direction)
    modifies carrier
    ensures carrier.Valid()
    ensures r.Ok? ==> Booked(a, carrier.events) && SamePayload(account, a) && (r.value.Some? ==> r.value.value == op)
    ensures ExactSize(Record(op, [])).Ok? && !old(carrier.disconnected) ==> r.Ok?
    ensures r.Ok? && r.value.Some? ==> ExactSize(Record(op, [])).Ok? && carrier.spent == old(carrier.spent) + ExactSize(Record(op, [])).value
    ensures ExactSize(Record(op, [])).Ok? && old(Admits(carrier, profile, ExactSize(Record(op, [])).value, ExactSize(Record(op, [])).value)) ==>
              r.Ok? && r.value.Some? && Steady(carrier)
  {
    var delivery;
    delivery, a := Submit(carrier, profile, Record(op, []), direction, Exact, account);
    if delivery.Err? {
      return Err(delivery.error), a;
    }
    r := Ok(if delivery.value.Received? then Some(delivery.value.record.operation) else None);
  }

  /** Capabilities go out and come back; both ends of the experiment declare the same value, so each decodes that value. */
  method TradeCapabilities(carrier: DeterministicCarrier, capabilities: Capabilities, account: Accounting)
    returns (r: Result<bool, ContactError>, a: Accounting)
    requires carrier.Valid() && Booked(account, carrier.events)
    modifies carrier
    ensures carrier.Valid()
    ensures r.Ok? ==> Booked(a, carrier.events) && SamePayload(account, a)
    ensures ExactSize(Record(CapabilitiesOp(capabilities), [])) == Ok(CAPABILITIES_OCTETS)
            && old(Admits(carrier, None, CAPABILITIES_OCTETS, 2 * CAPABILITIES_OCTETS)) ==>
              r == Ok(true) && Steady(carrier) && carrier.spent == old(carrier.spent) + 2 * CAPABILITIES_OCTETS
  {
    hide ExactSize, Booked;
    var local, remote;
    local, a := Send(carrier, None, CapabilitiesOp(capabilities), SenderToReceiver, account);
    if local.Err? {
      return Err(local.error), a;
    }
    if local.value.None? {
      return Ok(false), a;
    }
    remote, a := Send(carrier, None, CapabilitiesOp(capabilities), ReceiverToSender, a);
    if remote.Err? {
      return Err(remote.error), a;
    }
    assert remote.value.Some? ==> local.value.value.capabilities == remote.value.value.capabilities == capabilities;
    r := Ok(remote.value.Some?);
  }

  // ---- What the protocol store remembers ----

  /** What both ends agree on over a carrier of this kind. */
  ghost predicate Negotiated(d: Descriptor, config: CarrierConfig, p: Negotiation.Profile) {
    d.Valid() ==>
      && p.protocol == Generation(0, 1) && p.preference == CodecPreference(d.codecId, d.codecRevision, d.schemaFingerprint)
      && p.receiptLevels == 15 && p.securityClass == Public && p.extensions == []
      && p.maxOperationOctets == Min(config.maxRecordBytes, MAX_RECORD_OCTETS)
      && p.maxDataPayloadOctets == if d.encodedLength == 0 then 1 else d.encodedLength
  }

  /** Under this profile the offer of the representation, and so every smaller record, passes. */
  predicate Fit(d: Descriptor, p: Negotiation.Profile) {
    OfferOctets(d) <= p.maxOperationOctets <= MAX_RECORD_OCTETS && p.maxDataPayloadOctets > 0
  }

  predicate FitCache(d: Descriptor, peer: Octets32, st: ProtocolSpec.State) {
    st.cache.Some? && st.cache.value.peer == peer ==> Fit(d, st.cache.value.profile)
  }

  predicate FitImage(d: Descriptor, peer: Octets32, img: ProtocolSpec.Image) {
    ProtocolSpec.Open(img).Ok? ==> FitCache(d, peer, ProtocolSpec.Open(img).value)
  }

  /** Whatever a crash could have found in the slots so far holds no profile for the peer under which the offer would not pass. */
  ghost predicate FitSlots(d: Descriptor, peer: Octets32, slots: ProtocolStores.Slots)
    reads slots
  {
    FitImage(d, peer, slots.Now()) && forall k | 0 <= k < |slots.exposed| :: FitImage(d, peer, slots.exposed[k])
  }

  /** However a contact ends, no crash during it could have lost a save, and a fit cache stayed fit if the carrier takes the offer. */
  twostate predicate KeepsSlots(protocol: ProtocolStores.ProtocolStore, d: Descriptor, config: CarrierConfig, peer: Octets32)
    reads protocol, protocol.slots
  {
    && protocol.slots.Survives() && protocol.state.sequence <= old(protocol.state.sequence) + 1
    && (d.Valid() && OfferOctets(d) <= config.maxRecordBytes && old(FitSlots(d, peer, protocol.slots)) ==> FitSlots(d, peer, protocol.slots))
  }

  /** A contact that ends well keeps the cached profile, or where there was none that is current it stored the negotiated one, for a day. */
  twostate predicate Remembers(protocol: ProtocolStores.ProtocolStore, d: Descriptor, config: CarrierConfig, peer: Octets32, now: u64)
    reads protocol, protocol.slots
  {
    && protocol.Valid()
    && (protocol.state == old(protocol.state) ||
        (&& ProtocolSpec.CachedNegotiation(old(protocol.state), peer, now).None? && old(protocol.state.sequence) < U64_MAX
         && protocol.state.cache.Some? && Negotiated(d, config, protocol.state.cache.value.profile)
         && protocol.state.cache.value.peer == peer && protocol.state.cache.value.expiresAt == Saturate(now + 86_400)
         && protocol.state == old(protocol.state).(sequence := old(protocol.state.sequence) + 1, cache := protocol.state.cache)))
  }

  lemma ParametersAreBounded(d: Descriptor)
    requires d.Valid()
    ensures OfferOctets(d) <= MAX_RECORD_OCTETS
  {
  }

  lemma NegotiatedIsFit(d: Descriptor, config: CarrierConfig, p: Negotiation.Profile)
    ensures d.Valid() && OfferOctets(d) <= config.maxRecordBytes && Negotiated(d, config, p) ==> Fit(d, p)
  {
    if d.Valid() {
      ParametersAreBounded(d);
    }
  }

  /** Images that open to a fit state, to one that caches a negotiated profile or not at all are fit. */
  lemma CachingStaysFit(d: Descriptor, config: CarrierConfig, peer: Octets32, was: ProtocolSpec.State, now: ProtocolSpec.State,
                        img: ProtocolSpec.Image)
    requires d.Valid() && OfferOctets(d) <= config.maxRecordBytes && FitCache(d, peer, was)
    requires now.cache.Some? && Negotiated(d, config, now.cache.value.profile)
    requires ProtocolSpec.Open(img) == Ok(now) || ProtocolSpec.Open(img) == Ok(was) || ProtocolSpec.Open(img).Err?
    ensures FitImage(d, peer, img)
  {
    ParametersAreBounded(d);
  }

  method Remember(protocol: ProtocolStores.ProtocolStore, d: Descriptor, config: CarrierConfig, peer: Octets32, now: u64,
                  profile: Negotiation.Profile)
    returns (r: Outcome<ContactError>)
    requires protocol.Valid() && Negotiated(d, config, profile) && ProtocolSpec.CachedNegotiation(protocol.state, peer, now).None?
    modifies protocol, protocol.slots
    ensures KeepsSlots(protocol, d, config, peer)
    ensures r.Pass? ==> Remembers(protocol, d, config, peer, now) && ProtocolSpec.CachedNegotiation(protocol.state, peer, now) == Some(profile)
    ensures old(protocol.state.sequence) < U64_MAX ==> r.Pass?
  {
    var saved := protocol.PersistNegotiation(peer, Saturate(now + NEGOTIATION_LIFETIME), profile);
    if d.Valid() && OfferOctets(d) <= config.maxRecordBytes && old(FitSlots(d, peer, protocol.slots)) {
      ghost var was := old(protocol.Durable());
      CachingStaysFit(d, config, peer, was, protocol.state, protocol.slots.Now());
      forall k | |old(protocol.slots.exposed)| <= k < |protocol.slots.exposed|
        ensures FitImage(d, peer, protocol.slots.exposed[k])
      {
        CachingStaysFit(d, config, peer, was, protocol.state, protocol.slots.exposed[k]);
      }
    }
    r := if saved.Err? then Fail(ProtocolFailed(saved.error)) else Pass;
  }

  method Negotiate(receiver: Receiver, carrier: DeterministicCarrier, d: Descriptor, peer: Octets32, now: u64, account: Accounting)
    returns (r: Result<Option<Negotiation.Profile>, ContactError>, a: Accounting)
    requires receiver.protocol.Valid() && carrier.Valid() && Booked(account, carrier.events)
    modifies carrier, receiver.protocol, receiver.protocol.slots
    ensures carrier.Valid()
    ensures KeepsSlots(receiver.protocol, d, carrier.config, peer)
    ensures r.Ok? ==> Remembers(receiver.protocol, d, carrier.config, peer, now)
    ensures r.Ok? ==> Booked(a, carrier.events) && SamePayload(account, a)
    ensures r.Ok? && r.value.Some? ==> ProtocolSpec.CachedNegotiation(receiver.protocol.state, peer, now) == r.value
    ensures var cached := ProtocolSpec.CachedNegotiation(old(receiver.protocol.state), peer, now);
            cached.Some? ==> r == Ok(cached) && a == account && unchanged(carrier)
    ensures r.Ok? && r.value.Some? && ProtocolSpec.CachedNegotiation(old(receiver.protocol.state), peer, now).None? ==>
              Negotiated(d, carrier.config, r.value.value)
    ensures ProtocolSpec.CachedNegotiation(old(receiver.protocol.state), peer, now).None? && d.Valid()
            && old(receiver.protocol.state).sequence < U64_MAX && old(Admits(carrier, None, CAPABILITIES_OCTETS, 2 * CAPABILITIES_OCTETS)) ==>
              r.Ok? && r.value.Some? && Steady(carrier) && carrier.spent == old(carrier.spent) + 2 * CAPABILITIES_OCTETS
  {
    hide ExactSize, ValidateCapabilities, Booked;
    a := account;
    var cached := receiver.protocol.CachedNegotiation(peer, now);
    if cached.Some? {
      return Ok(cached), a;
    }
    var capabilities := ExperimentalCapabilities(d, carrier.config.maxRecordBytes);
    if d.Valid() {
      CapabilitiesSize(d, carrier.config.maxRecordBytes);
    }
    var traded;
    traded, a := TradeCapabilities(carrier, capabilities, a);
    if traded.Err? {
      return Err(traded.error), a;
    }
    if !traded.value {
      return Ok(None), a;
    }
    var selected := Negotiation.Negotiate(capabilities, capabilities);
    if d.Valid() {
      Negotiation.SelfAgreement(capabilities, selected);
    }
    if selected.Err? {
      return Err(NegotiationFailed(selected.error)), a;
    }
    var saved := Remember(receiver.protocol, d, carrier.config, peer, now, selected.value);
    r := if saved.Fail? then Err(saved.error) else Ok(Some(selected.value));
  }

  // ---- Durable octets and the books ----

  /** What a stretch of a contact did to the durable octets, and how its books account for it. */
  ghost predicate Moved(before: Held, l: Ledger, after: Held, m: Ledger, accepted: nat) {
    && after.descriptor == before.descriptor
    && before.receipts <= after.receipts
    && (before.accepted ==> after.accepted)
    && (before.committed ==> after.committed && after.content == before.content)
    && l.rejections <= m.rejections
    && (m.rejections == l.rejections ==> before.content <= after.content && |after.content| == |before.content| + accepted)
    && m.delivered + l.duplicate == l.delivered + accepted + m.duplicate
    && m.committed == l.committed + if after.committed && !before.committed then |after.content| else 0
  }

  lemma MovedOn(s: Held, k: Ledger, t: Held, l: Ledger, i: nat, u: Held, m: Ledger, j: nat)
    requires Moved(s, k, t, l, i) && Moved(t, l, u, m, j)
    requires t.committed ==> j == 0
    ensures Moved(s, k, u, m, i + j)
  {
  }

  // ---- Offer ----

  /** The summary of a collection of this one representation, then its offer. */
  method SendOffer(carrier: DeterministicCarrier, profile: Negotiation.Profile, sha: Hash, d: Descriptor, account: Accounting)
    returns (r: Result<Option<Offer>, ContactError>, a: Accounting)
    requires carrier.Valid() && Booked(account, carrier.events)
    modifies carrier
    ensures carrier.Valid()
    ensures r.Ok? ==> Booked(a, carrier.events) && SamePayload(account, a) && (r.value.Some? ==> r.value.value == SoleOffer(sha, d))
    ensures d.Valid() && old(Admits(carrier, Some(profile), OfferOctets(d), SUMMARY_OCTETS + OfferOctets(d))) ==>
              && r.Ok? && r.value.Some? && Steady(carrier)
              && carrier.spent == old(carrier.spent) + SUMMARY_OCTETS + OfferOctets(d)
  {
    hide ExactSize, Booked;
    if d.Valid() {
      SummarySize(sha, d);
      OfferSize(sha, d);
    }
    a := account;
    var summary := Checkpoints.CollectionCheckpoint(sha, COLLECTION_ID, 1, [CollectionEntry(sha, d)]);
    if summary.Err? {
      return Err(SyncFailed(summary.error)), a;
    }
    var sent;
    sent, a := Send(carrier, Some(profile), SummaryOp(summary.value), SenderToReceiver, a);
    if sent.Err? {
      return Err(sent.error), a;
    }
    if sent.value.None? {
      return Ok(None), a;
    }
    sent, a := Send(carrier, Some(profile), OfferOp(SoleOffer(sha, d)), SenderToReceiver, a);
    if sent.Err? {
      return Err(sent.error), a;
    }
    r := Ok(if sent.value.Some? then Some(sent.value.value.offer) else None);
  }

  /** Summary and offer, unless the descriptor was accepted before; true when the contact goes on. */
  method MakeOffer(sender: Sender, receiver: Receiver, carrier: DeterministicCarrier, profile: Negotiation.Profile, account: Accounting)
    returns (r: Result<bool, ContactError>, a: Accounting)
    requires receiver.Valid() && carrier.Valid() && Booked(account, carrier.events)
    modifies carrier, sender`state, receiver.representation, receiver.representation.disk
    ensures carrier.Valid()
    ensures Survives(receiver.representation.sha, old(receiver.representation.state.descriptor), receiver.representation.disk, receiver.whole)
    ensures receiver.representation.state.sequence <= old(receiver.representation.state.sequence) + 1
    ensures sender.state == old(sender.state) || sender.state == Offered
    ensures r.Ok? ==>
              && Booked(a, carrier.events) && SamePayload(account, a)
              && receiver.Valid()
              && receiver.DurableState() == old(receiver.DurableState()).(accepted := old(receiver.DurableState()).accepted || r.value)
    ensures old(receiver.Snapshot().accepted) ==>
              && r == Ok(true) && a == account && unchanged(carrier) && unchanged(sender)
              && unchanged(receiver.representation) && unchanged(receiver.representation.disk)
    ensures var octets := OfferOctets(sender.representation.descriptor);
            !old(receiver.Snapshot().accepted) && old(sender.state) == Available && old(receiver.SavesLeft(1))
            && sender.representation.descriptor == old(receiver.representation.state.descriptor)
            && old(Admits(carrier, Some(profile), octets, SUMMARY_OCTETS + octets)) ==>
              && r == Ok(true) && Steady(carrier) && sender.state == Offered && carrier.spent == old(carrier.spent) + SUMMARY_OCTETS + octets
  {
    hide ExactSize, Booked, Survives, RepresentationSafety.Live;
    a := account;
    if receiver.Snapshot().accepted {
      return Ok(true), a;
    }
    var d := sender.representation.descriptor;
    receiver.ContentIsPrefix();
    var offer;
    offer, a := SendOffer(carrier, profile, receiver.representation.sha, d, a);
    if offer.Err? {
      return Err(offer.error), a;
    }
    if offer.value.None? {
      return Ok(false), a;
    }
    var accepted := receiver.AcceptDescriptor(offer.value.value.descriptors[0].descriptor);
    if accepted.Fail? {
      return Err(accepted.error), a;
    }
    var moved := Transition(sender.state, Offered);
    if moved.Err? {
      return Err(moved.error), a;
    }
    sender.state := moved.value;
    r := Ok(true);
  }

  // ---- Verification and commit ----

  /** The receiver holds the described octets, committed or about to be. */
  ghost predicate Ready(receiver: Receiver)
    reads receiver.representation, receiver.representation.disk
  {
    receiver.Snapshot().committed || (receiver.Complete() && receiver.Passes())
  }

  /** What is durable decides whether the receiver is ready. */
  ghost predicate HeldReady(sha: Hash, h: Held) {
    h.committed || (Verify(sha, h.descriptor, h.content) && ValidateOpaque(h.content, h.descriptor))
  }

  lemma ReadyMeans(receiver: Receiver)
    requires receiver.Valid()
    ensures Ready(receiver) <==> HeldReady(receiver.representation.sha, receiver.DurableState())
  {
    receiver.ContentIsPrefix();
  }

  /** A complete uncommitted prefix is verified, then committed or quarantined; otherwise nothing happens. */
  method VerifyAndCommit(receiver: Receiver, account: Accounting, ghost events: seq<CarrierEvent>) returns (r: Outcome<ContactError>, a: Accounting)
    requires receiver.Valid() && Booked(account, events)
    modifies receiver.representation, receiver.representation.disk
    ensures Survives(receiver.representation.sha, old(receiver.representation.state.descriptor), receiver.representation.disk, receiver.whole)
    ensures receiver.representation.state.sequence <= old(receiver.representation.state.sequence) + 2
    ensures old(receiver.SavesLeft(2)) ==> r.Pass?
    ensures r.Pass? ==>
              && receiver.Valid()
              && if old(receiver.Snapshot().committed || !receiver.Complete()) then
                   a == account && receiver.DurableState() == old(receiver.DurableState())
                 else if old(receiver.Passes()) then
                   && a == account.(usefulCommitted := account.usefulCommitted + |receiver.Content()|)
                   && receiver.DurableState() == old(receiver.DurableState()).(accepted := true, committed := true)
                 else
                   && a == account.(integrityFailures := account.integrityFailures + 1)
                   && receiver.DurableState() == old(receiver.DurableState()).(accepted := true, content := [])
    ensures r.Pass? ==> Moved(old(receiver.DurableState()), account.Stored(), receiver.DurableState(), a.Stored(), 0) && Booked(a, events)
    ensures r.Pass? && Ready(receiver) ==> receiver.Snapshot().committed
    ensures old(receiver.Snapshot().committed || !receiver.Complete()) ==>
              r.Pass? && a == account && unchanged(receiver.representation) && unchanged(receiver.representation.disk)
  {
    hide Booked, Survives, RepresentationSafety.Live;
    a := account;
    r := Pass;
    if receiver.Snapshot().committed || !receiver.Complete() {
      return;
    }
    receiver.ContentIsPrefix();
    var verified := receiver.VerifyStaged();
    if verified == Ok(true) {
      var committed := receiver.CommitVerified();
      if committed.Err? {
        return Fail(RepresentationFailed(committed.error)), a;
      }
      if committed.value {
        a := a.(usefulCommitted := a.usefulCommitted + receiver.representation.state.descriptor.encodedLength);
        StillBooked(account, a, events);
      }
    } else if verified == Err(Spec.IntegrityOrDecode) {
      a := a.(integrityFailures := a.integrityFailures + 1);
      StillBooked(account, a, events);
    } else if verified.Err? {
      r := Fail(RepresentationFailed(verified.error));
    }
  }

  // ---- Data ----

  /** Octets taken and octets repeated account for every delivered payload octet. */
  ghost predicate Conserved(a: Accounting, b: Accounting, accepted: nat) {
    && b.payloadDelivered - a.payloadDelivered == accepted + b.payloadDuplicate - a.payloadDuplicate
    && b.usefulCommitted == a.usefulCommitted && b.integrityFailures == a.integrityFailures
  }

  /** Decoded data goes to the store; what it repeats is counted. */
  method AcceptDecoded(receiver: Receiver, data: Data, account: Accounting) returns (r: Outcome<ContactError>, a: Accounting, ghost accepted: nat)
    requires receiver.Valid() && PartOf(data.offset, data.payload, receiver.whole)
    modifies receiver.representation, receiver.representation.disk
    ensures Survives(receiver.representation.sha, old(receiver.representation.state.descriptor), receiver.representation.disk, receiver.whole)
    ensures receiver.representation.state.sequence <= old(receiver.representation.state.sequence) + 1
    ensures a == account.(payloadDuplicate := a.payloadDuplicate) && account.payloadDuplicate <= a.payloadDuplicate
    ensures r.Pass? ==>
              && receiver.Valid()
              && receiver.DurableState() == old(receiver.DurableState()).(content := receiver.Content()) && receiver.DurableState().accepted
              && accepted + a.payloadDuplicate == account.payloadDuplicate + |data.payload|
              && old(receiver.Content()) <= receiver.Content() && |receiver.Content()| == |old(receiver.Content())| + accepted
              && LiesIn(data, receiver.Content())
              && (data.offset + |data.payload| <= |old(receiver.Content())| ==> accepted == 0)
    ensures old(receiver.SavesLeft(1)) && ExpectsData(old(receiver.representation.state), old(receiver.Content()), data) ==> r.Pass?
  {
    a, accepted := account, 0;
    var done := receiver.AcceptData(data);
    if done.Err? {
      return Fail(done.error), a, 0;
    }
    accepted := done.value.acceptedOctets;
    a := a.(payloadDuplicate := a.payloadDuplicate + done.value.duplicateOctets);
    r := Pass;
  }

  /** The link stays up for the whole contact. */
  ghost predicate Steady(carrier: DeterministicCarrier)
    reads carrier
  {
    carrier.config.disconnectAfterMs.None? && !carrier.disconnected
  }

  /** A live receiver, still taking data, that already has octets wherever this payload would lie. */
  ghost predicate Covers(receiver: Receiver, data: Data)
    reads receiver.representation, receiver.representation.disk
  {
    && receiver.Valid() && receiver.Snapshot().accepted && !receiver.Snapshot().committed
    && data.representationId == receiver.representation.state.descriptor.representationId && data.payload != []
    && data.offset + |data.payload| <= |receiver.Content()|
  }

  /** The payload of so many copies of one record. */
  function Repeated(count: nat, payload: nat): nat {
    if count == 0 then 0 else payload + Repeated(count - 1, payload)
  }

  /** As many copies of a record of this size as are asked for and have room. */
  ghost predicate Fills(copies: nat, asked: nat, size: nat, room: int) {
    copies <= asked && Repeated(copies, size) <= room && (copies < asked ==> Repeated(copies, size) + size > room)
  }

  /** No other number does. */
  lemma FillsOnce(copies: nat, other: nat, asked: nat, size: nat, room: int)
    requires Fills(copies, asked, size, room) && Fills(other, asked, size, room)
    ensures copies == other
  {
    RepeatedGrows(copies + 1, other, size);
    RepeatedGrows(other + 1, copies, size);
  }

  lemma {:induction false} RepeatedGrows(few: nat, many: nat, size: nat)
    ensures few <= many ==> Repeated(few, size) <= Repeated(many, size)
    decreases many
  {
    if few < many {
      RepeatedGrows(few, many - 1, size);
    }
  }

  lemma RepeatedMore(n: nat, more: nat, size: nat)
    requires more <= 1
    ensures Repeated(n + more, size) == Repeated(n, size) + Repeated(more, size)
  {
  }

  /**
   After `i` admissions under a scope, `count` of them carried: the scope is charged for all of them, the carrier for those it carried, and it carries
   all until it has no room for another.
   */
  ghost predicate Replaying(i: nat, count: nat, size: nat, scopeRoom: int, scopeLeft: int, carrierRoom: int, carrierLeft: int) {
    && count <= i && scopeLeft == scopeRoom - Repeated(i, size) && carrierLeft == carrierRoom - Repeated(count, size)
    && (count == i || size > carrierLeft)
  }

  lemma NotYetReplaying(size: nat, payload: nat, scopeRoom: int, carrierRoom: int)
    ensures Replaying(0, 0, size, scopeRoom, scopeRoom, carrierRoom, carrierRoom) && Repeated(0, size) == 0 && Repeated(0, payload) == 0
  {
  }

  lemma ReplayingOn(i: nat, count: nat, carried: nat, size: nat, scopeRoom: int, scopeLeft: int, carrierRoom: int, carrierLeft: int)
    requires Replaying(i, count, size, scopeRoom, scopeLeft, carrierRoom, carrierLeft)
    requires carried <= 1 && (carried == 1 <==> size <= carrierLeft)
    ensures Replaying(i + 1, count + carried, size, scopeRoom, scopeLeft - size, carrierRoom, carrierLeft - Repeated(carried, size))
  {
    RepeatedMore(count, carried, size);
  }

  lemma ReplayingEnds(i: nat, count: nat, replays: nat, size: nat, scopeRoom: int, scopeLeft: int, carrierRoom: int, carrierLeft: int)
    requires Replaying(i, count, size, scopeRoom, scopeLeft, carrierRoom, carrierLeft) && i <= replays
    requires 0 <= scopeLeft && 0 <= carrierLeft && (i < replays ==> size > scopeLeft)
    ensures Fills(count, replays, size, Min(scopeRoom, carrierRoom))
  {
    RepeatedGrows(count, i, size);
  }

  lemma RepeatedFirst(count: nat, size: nat)
    ensures Repeated(0, size) == 0 && Repeated(1, size) == size && Repeated(1 + count, size) == size + Repeated(count, size)
  {
  }

  /** One copy and then as many as fill what is left. */
  lemma FillsWithFirst(copies: nat, asked: nat, size: nat, room: int)
    requires Fills(copies, asked, size, room - size)
    ensures Fills(copies + 1, asked + 1, size, room)
  {
  }

  /** One admitted replay; whatever is taken repeats what is held, so only the books change. */
  method ReplayOnce(receiver: Receiver, carrier: DeterministicCarrier, profile: Negotiation.Profile, data: Data, account: Accounting)
    returns (r: Outcome<ContactError>, a: Accounting, ghost count: nat)
    requires Covers(receiver, data) && carrier.Valid() && Booked(account, carrier.events)
    requires Carriable(data) && PartOf(data.offset, data.payload, receiver.whole)
    modifies carrier, receiver.representation, receiver.representation.disk
    ensures carrier.Valid()
    ensures Survives(receiver.representation.sha, old(receiver.representation.state.descriptor), receiver.representation.disk, receiver.whole)
    ensures receiver.representation.state.sequence <= old(receiver.representation.state.sequence) + 1
    ensures r.Pass? ==>
              && Booked(a, carrier.events) && Conserved(account, a, 0) && a.firstBody == account.firstBody
              && Covers(receiver, data) && receiver.DurableState() == old(receiver.DurableState())
              && count <= 1 && a.payloadSubmitted == account.payloadSubmitted + Repeated(count, |data.payload|)
              && carrier.spent == old(carrier.spent) + Repeated(count, DATA_OVERHEAD + |data.payload|)
              && account.payloadDelivered <= a.payloadDelivered
    ensures r.Pass? && old(Steady(carrier)) ==>
              && (count == 1 <==> old(Fits(carrier, profile, data)))
              && a.payloadDelivered == account.payloadDelivered + Repeated(count, |data.payload|)
    ensures old(Steady(carrier)) && old(receiver.SavesLeft(1)) && LiesIn(data, old(receiver.Content())) ==> r.Pass?
    ensures old(Steady(carrier)) && r.Pass? ==> Steady(carrier)
  {
    hide Booked, Recorded, Survives, RepresentationSafety.Live, ExactSize, DeterministicCarrier.Valid, RecordLimit, Receiver.Content, LiesIn,
         Credit, GainedRecord, DeterministicCarrier.Remaining;
    a, count, r := account, 0, Pass;
    DataSize(data);
    receiver.ContentIsPrefix();
    var delivery;
    delivery, a := Submit(carrier, Some(profile), Record(DataOp(data), []), SenderToReceiver, Exact, a);
    if delivery.Err? {
      return Fail(delivery.error), a, count;
    }
    count := if delivery.value == NotAdmitted then 0 else 1;
    if delivery.value.Received? {
      ghost var carried, accepted := a, 0;
      r, a, accepted := AcceptDecoded(receiver, delivery.value.record.operation.data, a);
      StillBooked(carried, a, carrier.events);
    }
  }

  /**
   Complete replays of a delivered DATA record. They change nothing but the books, and over a steady link whose records may be that large as
   many are carried and delivered as the plan asks for and scope and carrier both have room for.
   */
  method Replay(receiver: Receiver, carrier: DeterministicCarrier, scope: BudgetScope, profile: Negotiation.Profile, data: Data,
                size: u64, replays: byte, account: Accounting)
    returns (r: Outcome<ContactError>, a: Accounting, ghost count: nat)
    requires Covers(receiver, data) && carrier.Valid() && scope.Valid() && Booked(account, carrier.events)
    requires Carriable(data) && PartOf(data.offset, data.payload, receiver.whole) && size == DATA_OVERHEAD + |data.payload|
    modifies carrier, scope, receiver.representation, receiver.representation.disk
    ensures carrier.Valid()
    ensures Survives(receiver.representation.sha, old(receiver.representation.state.descriptor), receiver.representation.disk, receiver.whole)
    ensures receiver.representation.state.sequence <= old(receiver.representation.state.sequence) + replays
    ensures r.Pass? ==>
              && Booked(a, carrier.events) && Conserved(account, a, 0) && a.firstBody == account.firstBody
              && Covers(receiver, data) && receiver.DurableState() == old(receiver.DurableState())
              && count <= replays && a.payloadSubmitted == account.payloadSubmitted + Repeated(count, |data.payload|)
              && carrier.spent == old(carrier.spent) + Repeated(count, size) && account.payloadDelivered <= a.payloadDelivered
    ensures r.Pass? && old(Steady(carrier)) && size <= RecordLimit(carrier.config, Some(profile)) ==>
              && Fills(count, replays, size, Min(old(AnswerRoom(scope)), old(carrier.Remaining())))
              && a.payloadDelivered == account.payloadDelivered + Repeated(count, |data.payload|)
    ensures old(Steady(carrier)) && old(receiver.SavesLeft(replays)) && LiesIn(data, old(receiver.Content())) ==> r.Pass?
    ensures old(Steady(carrier)) && r.Pass? ==> Steady(carrier)
  {
    hide Booked, Survives, RepresentationSafety.Live, Logged, Totals, RecordLimit, Carriable, PartOf, Repeated, Replaying, Fills;
    a, count, r := account, 0, Pass;
    ghost var steady := Steady(carrier) && size <= RecordLimit(carrier.config, Some(profile));
    ghost var scopeRoom, carrierRoom := AnswerRoom(scope), carrier.Remaining();
    NotYetReplaying(size, |data.payload|, scopeRoom, carrierRoom);
    ghost var sent := 0;
    for i := 0 to replays
      invariant carrier.Valid() && scope.Valid() && Booked(a, carrier.events)
      invariant Conserved(account, a, 0) && a.firstBody == account.firstBody && account.payloadDelivered <= a.payloadDelivered
      invariant Covers(receiver, data) && receiver.DurableState() == old(receiver.DurableState())
      invariant receiver.representation.state.sequence <= old(receiver.representation.state.sequence) + i
      invariant sent == i && count <= i && a.payloadSubmitted == account.payloadSubmitted + Repeated(count, |data.payload|)
      invariant r.Pass? && (old(Steady(carrier)) ==> Steady(carrier)) && carrier.spent == old(carrier.spent) + Repeated(count, size)
      invariant steady ==> Replaying(i, count, size, scopeRoom, AnswerRoom(scope), carrierRoom, carrier.Remaining())
      invariant steady ==> a.payloadDelivered == account.payloadDelivered + Repeated(count, |data.payload|)
    {
      var admitted := scope.Admit(SenderToReceiver, size);
      if !admitted {
        break;
      }
      ghost var carried, left, room := 0, carrier.Remaining(), AnswerRoom(scope) + size;
      r, a, carried := ReplayOnce(receiver, carrier, profile, data, a);
      if r.Fail? {
        return;
      }
      RepeatedMore(count, carried, |data.payload|);
      RepeatedMore(count, carried, size);
      if steady {
        ReplayingOn(i, count, carried, size, scopeRoom, room, carrierRoom, left);
      }
      count, sent := count + carried, i + 1;
    }
    if steady {
      ReplayingEnds(sent, count, replays, size, scopeRoom, AnswerRoom(scope), carrierRoom, carrier.Remaining());
    }
  }

  /** A receiver that takes data next, and the data its prefix continues with. */
  ghost predicate Awaits(receiver: Receiver, data: Data)
    reads receiver.representation, receiver.representation.disk
  {
    && receiver.Valid() && receiver.Snapshot().accepted && !receiver.Snapshot().committed && Carriable(data)
    && data.representationId == receiver.representation.state.descriptor.representationId
    && data.offset == receiver.representation.state.prefix
    && data.offset + |data.payload| <= receiver.representation.state.descriptor.encodedLength
  }

  /** The receiver got further by exactly this payload. */
  twostate predicate Advanced(receiver: Receiver, payload: Bytes)
    reads receiver.representation, receiver.representation.disk
  {
    receiver.DurableState() == old(receiver.DurableState()).(content := old(receiver.Content()) + payload)
  }

  /** Taking data that continues the prefix appends its payload. */
  method TakeNext(receiver: Receiver, data: Data, account: Accounting) returns (r: Outcome<ContactError>, a: Accounting)
    requires Awaits(receiver, data) && PartOf(data.offset, data.payload, receiver.whole)
    modifies receiver.representation, receiver.representation.disk
    ensures Survives(receiver.representation.sha, old(receiver.representation.state.descriptor), receiver.representation.disk, receiver.whole)
    ensures receiver.representation.state.sequence <= old(receiver.representation.state.sequence) + 1
    ensures r.Pass? ==> a == account && Covers(receiver, data) && Advanced(receiver, data.payload)
    ensures old(receiver.SavesLeft(1)) ==> r.Pass?
  {
    hide Survives, RepresentationSafety.Live;
    receiver.ContentIsPrefix();
    ghost var before := receiver.Content();
    ghost var accepted;
    r, a, accepted := AcceptDecoded(receiver, data, account);
    if r.Pass? {
      assert receiver.Content()[|before|..|before| + |data.payload|] == data.payload;
      assert |receiver.Content()| == |before| + |data.payload|;
      assert receiver.Content() == receiver.Content()[..|before|] + receiver.Content()[|before|..];
    }
  }

  /** What one contact did with payload octets, and the room its carrier had when the first of them was to be sent. */
  datatype Exchange = Exchange(copies: nat, accepted: nat, delivered: nat, room: nat)

  const NO_EXCHANGE := Exchange(0, 0, 0, 0)

  /** The books show the copies of one payload that were submitted, at most so many replays among them, and what was delivered of them. */
  ghost predicate Carried(account: Accounting, a: Accounting, x: Exchange, payload: nat, replays: byte) {
    && x.copies <= 1 + replays
    && a.payloadSubmitted == account.payloadSubmitted + Repeated(x.copies, payload)
    && a.payloadDelivered == account.payloadDelivered + x.delivered
  }

  /** Only submitted and delivered payload matter. */
  lemma CarriedBetween(l: Accounting, account: Accounting, a: Accounting, m: Accounting, x: Exchange, payload: nat, replays: byte)
    requires Carried(account, a, x, payload, replays)
    requires l.payloadSubmitted == account.payloadSubmitted && l.payloadDelivered == account.payloadDelivered
    requires m.payloadSubmitted == a.payloadSubmitted && m.payloadDelivered == a.payloadDelivered
    ensures Carried(l, m, x, payload, replays)
  {
  }

  /** The payload was taken, and it and as many replays as were asked for and had room were carried and delivered. */
  ghost predicate AllCopies(x: Exchange, payload: nat, replays: byte, room: nat) {
    x.accepted == payload && x.delivered == Repeated(x.copies, payload) && x.room == room
    && Fills(x.copies, 1 + replays, DATA_OVERHEAD + payload, room)
  }

  /** One DATA record and its replays: at most one payload is taken, and all of it, as sent or with its first octet inverted. */
  twostate predicate Exchanged(receiver: Receiver, data: Data, mutation: Mutation, x: Exchange)
    requires data.payload != []
    reads receiver.representation, receiver.representation.disk
  {
    && receiver.Valid() && receiver.Snapshot().accepted && !receiver.Snapshot().committed
    && if x.accepted == 0 then
         receiver.DurableState() == old(receiver.DurableState())
       else
         && x.accepted == |data.payload| && x.copies > 0 && mutation != TruncateRecord
         && Advanced(receiver, Taken(data, mutation).payload)
  }

  /** What the strict decoder makes of a delivered DATA record that decodes. */
  function Taken(data: Data, mutation: Mutation): Data
    requires data.payload != []
  {
    if mutation == CorruptPayload then data.(payload := data.payload[0 := Flip(data.payload[0])]) else data
  }

  lemma TakenIsAwaited(receiver: Receiver, data: Data, mutation: Mutation)
    requires Awaits(receiver, data) && PartOf(data.offset, data.payload, receiver.whole) && (receiver.whole.Some? ==> mutation != CorruptPayload)
    ensures var taken := Taken(data, mutation);
            Awaits(receiver, taken) && |taken.payload| == |data.payload| && PartOf(taken.offset, taken.payload, receiver.whole)
  {
  }

  /** Data that arrived is taken, and the record it came from is replayed. */
  method TakeAndReplay(receiver: Receiver, carrier: DeterministicCarrier, scope: BudgetScope, profile: Negotiation.Profile, data: Data, arrived: Data,
                       size: u64, replays: byte, account: Accounting)
    returns (r: Outcome<ContactError>, a: Accounting, ghost count: nat)
    requires Awaits(receiver, data) && Awaits(receiver, arrived) && |arrived.payload| == |data.payload|
    requires PartOf(data.offset, data.payload, receiver.whole) && PartOf(arrived.offset, arrived.payload, receiver.whole)
    requires carrier.Valid() && scope.Valid() && Booked(account, carrier.events) && size == DATA_OVERHEAD + |data.payload|
    modifies carrier, scope, receiver.representation, receiver.representation.disk
    ensures carrier.Valid()
    ensures Survives(receiver.representation.sha, old(receiver.representation.state.descriptor), receiver.representation.disk, receiver.whole)
    ensures receiver.representation.state.sequence <= old(receiver.representation.state.sequence) + 1 + replays
    ensures r.Pass? ==>
              && Booked(a, carrier.events) && Conserved(account, a, 0) && a.firstBody == account.firstBody
              && Covers(receiver, data) && Advanced(receiver, arrived.payload)
              && count <= replays && a.payloadSubmitted == account.payloadSubmitted + Repeated(count, |data.payload|)
              && carrier.spent == old(carrier.spent) + Repeated(count, size) && account.payloadDelivered <= a.payloadDelivered
    ensures r.Pass? && old(Steady(carrier)) && size <= RecordLimit(carrier.config, Some(profile)) ==>
              && Fills(count, replays, size, Min(old(AnswerRoom(scope)), old(carrier.Remaining())))
              && a.payloadDelivered == account.payloadDelivered + Repeated(count, |data.payload|)
    ensures old(Steady(carrier)) && old(receiver.SavesLeft(1 + replays)) && arrived == data ==> r.Pass?
    ensures old(Steady(carrier)) && r.Pass? ==> Steady(carrier)
  {
    count := 0;
    receiver.ContentIsPrefix();
    r, a := TakeNext(receiver, arrived, account);
    if r.Pass? {
      r, a, count := Replay(receiver, carrier, scope, profile, data, size, replays, a);
    }
  }

  /** Carries one DATA record and notes the octets around the first body that arrives. */
  method CarryData(carrier: DeterministicCarrier, profile: Negotiation.Profile, data: Data, mutation: Mutation, account: Accounting)
    returns (r: Result<Option<Data>, ContactError>, a: Accounting, ghost copies: nat)
    requires carrier.Valid() && Booked(account, carrier.events) && Carriable(data)
    modifies carrier
    ensures carrier.Valid()
    ensures r.Ok? ==>
              && Booked(a, carrier.events)
              && a.payloadDuplicate == account.payloadDuplicate && a.usefulCommitted == account.usefulCommitted
              && a.integrityFailures == account.integrityFailures
              && copies <= 1 && a.payloadSubmitted == account.payloadSubmitted + Repeated(copies, |data.payload|)
              && a.payloadDelivered == account.payloadDelivered + (if r.value.Some? then |data.payload| else 0)
              && (r.value.Some? ==> copies == 1 && mutation != TruncateRecord && r.value.value == Taken(data, mutation))
              && a.firstBody == (if account.firstBody.Some? || r.value.None? then account.firstBody
                                 else Some(FirstBody(account.Total(), a.Total(), old(carrier.metrics.carrierBytes),
                                                     carrier.metrics.carrierBytes, |data.payload|)))
    ensures r.Ok? ==> carrier.spent == old(carrier.spent) + Repeated(copies, DATA_OVERHEAD + |data.payload|)
    ensures r.Ok? ==>
              && account.decodeFailures <= a.decodeFailures <= account.decodeFailures + copies
              && (r.value.Some? || mutation != TruncateRecord ==> a.decodeFailures == account.decodeFailures)
    ensures old(Steady(carrier)) && mutation == TruncateRecord && r.Ok? ==> a.decodeFailures == account.decodeFailures + copies
    ensures old(Steady(carrier)) ==> r.Ok? && Steady(carrier) && (copies == 1 <==> old(Fits(carrier, profile, data)))
    ensures old(Steady(carrier)) && mutation == Exact && old(Fits(carrier, profile, data)) ==> r == Ok(Some(data))
  {
    hide Booked, Recorded, ExactSize, DeterministicCarrier.Valid, RecordLimit;
    a, copies := account, 0;
    DataSize(data);
    var before := (a.Total(), carrier.metrics.carrierBytes);
    var delivery;
    delivery, a := Submit(carrier, Some(profile), Record(DataOp(data), []), SenderToReceiver, mutation, a);
    if delivery.Err? {
      return Err(delivery.error), a, copies;
    }
    copies := if delivery.value == NotAdmitted then 0 else 1;
    ghost var carried := a;
    if delivery.value.Received? && a.firstBody.None? {
      a := a.(firstBody := Some(FirstBody(before.0, a.Total(), before.1, carrier.metrics.carrierBytes, |data.payload|)));
    }
    StillBooked(carried, a, carrier.events);
    r := Ok(if delivery.value.Received? then Some(delivery.value.record.operation.data) else None);
  }

  /** The record limit and the budget left admit this data. */
  predicate Fits(carrier: DeterministicCarrier, profile: Negotiation.Profile, data: Data)
    reads carrier
  {
    DATA_OVERHEAD + |data.payload| <= RecordLimit(carrier.config, Some(profile)) && DATA_OVERHEAD + |data.payload| <= carrier.Remaining()
  }

  /** The books after one payload was taken and replayed. */
  lemma OneAndReplays(account: Accounting, b: Accounting, a: Accounting, payload: nat, count: nat, replays: byte, room: nat)
    requires b.payloadDuplicate == account.payloadDuplicate && b.usefulCommitted == account.usefulCommitted
    requires b.integrityFailures == account.integrityFailures
    requires b.payloadSubmitted == account.payloadSubmitted + payload && b.payloadDelivered == account.payloadDelivered + payload
    requires Conserved(b, a, 0) && b.payloadDelivered <= a.payloadDelivered && count <= replays
    requires a.payloadSubmitted == b.payloadSubmitted + Repeated(count, payload)
    ensures Conserved(account, a, payload)
    ensures Carried(account, a, Exchange(1 + count, payload, a.payloadDelivered - account.payloadDelivered, room), payload, replays)
    ensures Repeated(1 + count, DATA_OVERHEAD + payload) == DATA_OVERHEAD + payload + Repeated(count, DATA_OVERHEAD + payload)
    ensures a.payloadDelivered == b.payloadDelivered + Repeated(count, payload)
            && Fills(count, replays, DATA_OVERHEAD + payload, room - DATA_OVERHEAD - payload) ==>
              AllCopies(Exchange(1 + count, payload, a.payloadDelivered - account.payloadDelivered, room), payload, replays, room)
  {
  }

  /** The books after one record, if it was carried at all, of which nothing was taken. */
  lemma OneAtMost(account: Accounting, a: Accounting, payload: nat, copies: nat, replays: byte, room: nat)
    requires SamePayload(account, a.(payloadSubmitted := account.payloadSubmitted, firstBody := account.firstBody))
    requires copies <= 1 && a.payloadSubmitted == account.payloadSubmitted + Repeated(copies, payload)
    ensures Conserved(account, a, 0) && Carried(account, a, Exchange(copies, 0, 0, room), payload, replays)
  {
  }

  /** One DATA record under the plan's mutation, and its replays once it was taken. */
  method SendData(receiver: Receiver, carrier: DeterministicCarrier, scope: BudgetScope, profile: Negotiation.Profile, data: Data, size: u64,
                  mutation: Mutation, replays: byte, account: Accounting)
    returns (r: Outcome<ContactError>, a: Accounting, ghost x: Exchange)
    requires Awaits(receiver, data) && carrier.Valid() && scope.Valid() && Booked(account, carrier.events)
    requires PartOf(data.offset, data.payload, receiver.whole) && (receiver.whole.Some? ==> mutation == Exact)
    requires size == DATA_OVERHEAD + |data.payload|
    modifies carrier, scope, receiver.representation, receiver.representation.disk
    ensures carrier.Valid()
    ensures Survives(receiver.representation.sha, old(receiver.representation.state.descriptor), receiver.representation.disk, receiver.whole)
    ensures receiver.representation.state.sequence <= old(receiver.representation.state.sequence) + 1 + replays
    ensures r.Pass? ==> carrier.spent == old(carrier.spent) + Repeated(x.copies, size)
    ensures r.Pass? ==>
              && Booked(a, carrier.events) && Conserved(account, a, x.accepted)
              && Exchanged(receiver, data, mutation, x) && Carried(account, a, x, |data.payload|, replays)
    ensures old(Steady(carrier)) && mutation == Exact && old(receiver.SavesLeft(1 + replays)) ==> r.Pass?
    ensures old(Steady(carrier)) && r.Pass? ==> Steady(carrier)
    ensures r.Pass? && old(Steady(carrier)) && mutation == Exact && old(Fits(carrier, profile, data)) && size <= old(AnswerRoom(scope))
            && old(AnswerRoom(scope) == carrier.Remaining()) ==>
              AllCopies(x, |data.payload|, replays, old(carrier.Remaining()))
  {
    hide Booked, Survives, RepresentationSafety.Live, Representation.Verify, ExactSize, DeterministicCarrier.Valid, RecordLimit, Fills,
         Repeated, Carriable, PartOf, Taken, Conserved, Carried, AllCopies, Receiver.Content;
    a, x, r := account, NO_EXCHANGE, Pass;
    receiver.ContentIsPrefix();
    TakenIsAwaited(receiver, data, mutation);
    RepeatedFirst(0, size);
    RepeatedFirst(0, |data.payload|);
    OneAtMost(account, account, |data.payload|, 0, replays, 0);
    var admitted := scope.Admit(SenderToReceiver, size);
    if !admitted {
      return;
    }
    ghost var room, copies := carrier.Remaining(), 0;
    var arrived;
    arrived, a, copies := CarryData(carrier, profile, data, mutation, a);
    if arrived.Err? {
      return Fail(arrived.error), a, x;
    }
    if arrived.value.None? {
      OneAtMost(account, a, |data.payload|, copies, replays, room);
      x := Exchange(copies, 0, 0, room);
      return;
    }
    ghost var b, count := a, 0;
    r, a, count := TakeAndReplay(receiver, carrier, scope, profile, data, arrived.value.value, size, replays, a);
    if r.Pass? {
      OneAndReplays(account, b, a, |data.payload|, count, replays, room);
      x := Exchange(1 + count, |data.payload|, a.payloadDelivered - account.payloadDelivered, room);
    }
  }

  // ---- Request ----

  /** How much payload the next DATA record may carry. */
  function NextLimit(receiver: Receiver, carrier: DeterministicCarrier, profile: Negotiation.Profile): nat
    reads receiver.representation, carrier
  {
    var d := receiver.Snapshot().descriptor;
    PayloadLimit(Less(d.encodedLength, receiver.Snapshot().prefix), profile.maxDataPayloadOctets,
                 RecordLimit(carrier.config, Some(profile)), carrier.Remaining())
  }

  /** The next octets of the sender's representation. */
  function NextData(sender: Sender, prefix: u64, limit: nat): Data
    requires prefix + limit <= |sender.representation.bytes|
  {
    Data(sender.representation.descriptor.representationId, prefix, sender.representation.bytes[prefix..prefix + limit])
  }

  /** A request for what follows a prefix passes the check against an offered length exactly if the length reaches that far. */
  lemma RequestIsValid(d: Descriptor, budgetId: Octets16, budget: u64, prefix: u64, desired: u64, length: u64)
    requires 0 < desired && length <= MAX_REPRESENTATION_OCTETS
    ensures ValidateRequest(Request(d, budgetId, budget, prefix, desired), map[d.representationId := length]).Pass? <==> prefix + desired <= length
  {
    var offered := map[d.representationId := length];
    var selections := Request(d, budgetId, budget, prefix, desired).selections;
    assert ValidateSelection(selections[0], length).Pass? <==> prefix + desired <= length;
    assert ValidateSelections(selections[1..], {d.representationId}, offered).Pass?;
    assert {} + {d.representationId} == {d.representationId};
  }

  /** The link is up for good, the sender's phase lets it go on, and limit and budget admit a request. */
  predicate CanAsk(sender: Sender, carrier: DeterministicCarrier, profile: Negotiation.Profile)
    reads sender, carrier
  {
    && carrier.config.disconnectAfterMs.None? && !carrier.disconnected
    && sender.state != AwaitingReceipt && sender.state != Receipted
    && REQUEST_OCTETS <= RecordLimit(carrier.config, Some(profile)) <= MAX_RECORD_OCTETS
    && REQUEST_OCTETS <= carrier.Remaining()
  }

  method SendRequest(carrier: DeterministicCarrier, profile: Negotiation.Profile, q: DataRequest, account: Accounting)
    returns (r: Result<bool, ContactError>, a: Accounting)
    requires carrier.Valid() && Booked(account, carrier.events)
    requires ExactSize(Record(RequestOp(RepresentationData(q)), [])) == Ok(REQUEST_OCTETS)
    modifies carrier
    ensures carrier.Valid()
    ensures r.Ok? ==> Booked(a, carrier.events) && SamePayload(account, a) && (r.value ==> carrier.spent == old(carrier.spent) + REQUEST_OCTETS)
    ensures old(Steady(carrier)) ==> r.Ok? && Steady(carrier)
    ensures old(Steady(carrier)) && REQUEST_OCTETS <= RecordLimit(carrier.config, Some(profile)) && REQUEST_OCTETS <= old(carrier.Remaining()) ==>
              r == Ok(true)
  {
    var delivery;
    delivery, a := Submit(carrier, Some(profile), Record(RequestOp(RepresentationData(q)), []), ReceiverToSender, Exact, account);
    if delivery.Err? {
      return Err(delivery.error), a;
    }
    r := Ok(delivery.value.Received?);
  }

  /** A delivered request moves the sender into its sending phase. */
  method Ask(sender: Sender, carrier: DeterministicCarrier, profile: Negotiation.Profile, q: DataRequest, account: Accounting)
    returns (r: Result<bool, ContactError>, a: Accounting)
    requires carrier.Valid() && Booked(account, carrier.events)
    requires ExactSize(Record(RequestOp(RepresentationData(q)), [])) == Ok(REQUEST_OCTETS)
    modifies carrier, sender`state
    ensures carrier.Valid() && (Waiting(sender.state) ==> old(Waiting(sender.state)))
    ensures r.Ok? ==> Booked(a, carrier.events) && SamePayload(account, a) && (r.value ==> carrier.spent == old(carrier.spent) + REQUEST_OCTETS)
    ensures old(Steady(carrier)) && r.Ok? ==> Steady(carrier)
    ensures old(CanAsk(sender, carrier, profile)) ==> r == Ok(true)
    ensures r == Ok(true) ==> sender.state == Sending
    ensures r == Ok(false) ==> sender.state == old(sender.state)
  {
    r, a := SendRequest(carrier, profile, q, account);
    if r != Ok(true) {
      return;
    }
    sender.PrepareForRequest();
    var moved := Transition(sender.state, Sending);
    if moved.Err? {
      return Err(moved.error), a;
    }
    sender.state := moved.value;
  }

  /** If the receiver shall hold nothing else, the sender's octets arrive as they are. */
  ghost predicate Faithful(sender: Sender, receiver: Receiver, mutation: Mutation) {
    receiver.whole.Some? ==> receiver.whole.value == sender.representation.bytes && mutation == Exact
  }

  predicate Waiting(state: SenderState) {
    state == AwaitingReceipt || state == Receipted
  }

  /** Sends the next octets behind the prefix, as many as the request asked for. */
  method SendNext(sender: Sender, receiver: Receiver, carrier: DeterministicCarrier, scope: BudgetScope, profile: Negotiation.Profile, limit: u64,
                  mutation: Mutation, replays: byte, account: Accounting)
    returns (r: Outcome<ContactError>, a: Accounting, ghost x: Exchange)
    requires receiver.Valid() && receiver.Snapshot().accepted && !receiver.Snapshot().committed
    requires carrier.Valid() && scope.Valid() && Booked(account, carrier.events)
    requires 0 < limit && receiver.Snapshot().prefix + limit <= |sender.representation.bytes|
    requires sender.representation.descriptor == receiver.representation.state.descriptor
    requires |sender.representation.bytes| == sender.representation.descriptor.encodedLength && Faithful(sender, receiver, mutation)
    modifies carrier, scope, receiver.representation, receiver.representation.disk
    ensures carrier.Valid()
    ensures Survives(receiver.representation.sha, old(receiver.representation.state.descriptor), receiver.representation.disk, receiver.whole)
    ensures receiver.representation.state.sequence <= old(receiver.representation.state.sequence) + 1 + replays
    ensures r.Pass? ==>
              && Booked(a, carrier.events) && Conserved(account, a, x.accepted)
              && Exchanged(receiver, NextData(sender, old(receiver.Snapshot().prefix), limit), mutation, x)
              && Carried(account, a, x, limit, replays)
    ensures r.Pass? ==> carrier.spent == old(carrier.spent) + Repeated(x.copies, DATA_OVERHEAD + limit)
    ensures mutation == Exact && old(Steady(carrier)) && old(receiver.SavesLeft(1 + replays))
            && DATA_OVERHEAD + limit <= old(Opening(carrier, profile)) && old(AnswerRoom(scope) == carrier.Remaining()) ==>
              r.Pass? && AllCopies(x, limit, replays, old(carrier.Remaining())) && Steady(carrier)
  {
    hide Booked, Survives, RepresentationSafety.Live, Representation.Verify, ExactSize, Totals, DeterministicCarrier.Valid, Conserved, Exchanged;
    a, x := account, NO_EXCHANGE;
    receiver.ContentIsPrefix();
    var data := NextData(sender, receiver.Snapshot().prefix, limit);
    DataSize(data);
    var size := ExactSize(Record(DataOp(data), []));
    if size.Err? {
      return Fail(SyncFailed(size.error)), a, x;
    }
    r, a, x := SendData(receiver, carrier, scope, profile, data, size.value, mutation, replays, a);
  }

  /** How large a record the carrier still takes. */
  function Opening(carrier: DeterministicCarrier, profile: Negotiation.Profile): nat
    reads carrier
  {
    Min(Min(MAX_RECORD_OCTETS, RecordLimit(carrier.config, Some(profile))), carrier.Remaining())
  }

  function AnswerRoom(scope: BudgetScope): nat
    reads scope
  {
    if scope.Room(SenderToReceiver) <= 0 then 0 else scope.Room(SenderToReceiver)
  }

  /** The request for the next octets under the whole remaining budget, and the scope it leaves for the answer. */
  method AskFor(sender: Sender, receiver: Receiver, carrier: DeterministicCarrier, profile: Negotiation.Profile, limit: u64, account: Accounting)
    returns (r: Result<bool, ContactError>, a: Accounting, scope: BudgetScope)
    requires receiver.Valid() && carrier.Valid() && Booked(account, carrier.events)
    requires 0 < limit && receiver.Snapshot().prefix + limit <= receiver.Snapshot().descriptor.encodedLength
    requires REQUEST_OCTETS <= carrier.Remaining()
    modifies carrier, sender`state
    ensures carrier.Valid() && (Waiting(sender.state) ==> old(Waiting(sender.state)))
    ensures fresh(scope) && scope.Valid() && AnswerRoom(scope) == old(carrier.Remaining()) - REQUEST_OCTETS
    ensures r.Ok? ==> Booked(a, carrier.events) && SamePayload(account, a) && (r.value ==> carrier.spent == old(carrier.spent) + REQUEST_OCTETS)
    ensures old(Steady(carrier)) && r.Ok? ==> Steady(carrier)
    ensures old(CanAsk(sender, carrier, profile)) ==> r == Ok(true)
  {
    hide Booked, Survives, RepresentationSafety.Live, Representation.Verify, ExactSize, Totals, ValidateRequest, DeterministicCarrier.Valid;
    receiver.ContentIsPrefix();
    var snapshot := receiver.Snapshot();
    var d, prefix, budget := snapshot.descriptor, snapshot.prefix, carrier.Remaining();
    var q := Request(d, ReceiptId(receiver.representation.sha, d.representationId), budget, prefix, limit);
    RequestIsValid(d, q.budgetId, budget, prefix, limit, d.encodedLength);
    RequestSize(d, q.budgetId, budget, prefix, limit);
    assert ValidateRequest(q, map[d.representationId := d.encodedLength]).Pass?;
    scope := new BudgetScope(q);
    var admitted := scope.Admit(ReceiverToSender, REQUEST_OCTETS);
    assert admitted;
    r, a := Ask(sender, carrier, profile, q, account);
  }

  /** Asks for the next octets under the whole remaining budget and, once the request arrived, sends them. */
  method Transfer(sender: Sender, receiver: Receiver, carrier: DeterministicCarrier, profile: Negotiation.Profile, limit: u64,
                  mutation: Mutation, replays: byte, account: Accounting)
    returns (r: Result<bool, ContactError>, a: Accounting, ghost x: Exchange)
    requires receiver.Valid() && receiver.Snapshot().accepted && !receiver.Snapshot().committed
    requires carrier.Valid() && Booked(account, carrier.events) && 0 < limit == NextLimit(receiver, carrier, profile)
    requires sender.representation.descriptor == receiver.representation.state.descriptor
    requires |sender.representation.bytes| == sender.representation.descriptor.encodedLength && Faithful(sender, receiver, mutation)
    modifies carrier, sender`state, receiver.representation, receiver.representation.disk
    ensures carrier.Valid() && (Waiting(sender.state) ==> old(Waiting(sender.state)))
    ensures Survives(receiver.representation.sha, old(receiver.representation.state.descriptor), receiver.representation.disk, receiver.whole)
    ensures receiver.representation.state.sequence <= old(receiver.representation.state.sequence) + 1 + replays
    ensures r.Ok? ==>
              && Booked(a, carrier.events) && Conserved(account, a, x.accepted)
              && old(receiver.Snapshot().prefix) + limit <= |sender.representation.bytes|
              && Exchanged(receiver, NextData(sender, old(receiver.Snapshot().prefix), limit), mutation, x)
              && Carried(account, a, x, limit, replays)
    ensures r == Ok(true) ==> carrier.spent == old(carrier.spent) + REQUEST_OCTETS + Repeated(x.copies, DATA_OVERHEAD + limit)
    ensures r == Ok(false) ==> receiver.DurableState() == old(receiver.DurableState())
    ensures mutation == Exact && old(receiver.SavesLeft(1 + replays)) && old(CanAsk(sender, carrier, profile)) ==>
              r == Ok(true) && AllCopies(x, limit, replays, old(carrier.Remaining()) - REQUEST_OCTETS) && Steady(carrier)
  {
    hide Booked, Survives, RepresentationSafety.Live, Representation.Verify, DeterministicCarrier.Valid, PayloadLimit;
    a, x := account, NO_EXCHANGE;
    receiver.ContentIsPrefix();
    var asked, scope;
    asked, a, scope := AskFor(sender, receiver, carrier, profile, limit, a);
    if asked.Err? {
      return Err(asked.error), a, x;
    }
    if !asked.value {
      return Ok(false), a, x;
    }
    var done;
    done, a, x := SendNext(sender, receiver, carrier, scope, profile, limit, mutation, replays, a);
    r := if done.Fail? then Err(done.error) else Ok(true);
  }

  /** An exchange that took nothing, or one payload onto the end of uncommitted octets. */
  lemma ExchangeMoves(s: Held, account: Accounting, t: Held, a: Accounting, accepted: nat, payload: Bytes)
    requires Conserved(account, a, accepted)
    requires if accepted == 0 then t == s else !s.committed && accepted == |payload| && t == s.(content := s.content + payload)
    ensures Moved(s, account.Stored(), t, a.Stored(), accepted)
  {
  }

  function NextOctets(sender: Sender, prefix: nat, limit: nat): Bytes {
    if prefix + limit <= |sender.representation.bytes| then sender.representation.bytes[prefix..prefix + limit] else []
  }

  /** The data part of a contact: nothing for committed octets or without room, else one request and what it authorizes. */
  method RequestData(sender: Sender, receiver: Receiver, carrier: DeterministicCarrier, profile: Negotiation.Profile,
                     mutation: Mutation, replays: byte, account: Accounting)
    returns (r: Result<bool, ContactError>, a: Accounting, ghost x: Exchange)
    requires receiver.Valid() && receiver.Snapshot().accepted && carrier.Valid() && Booked(account, carrier.events)
    requires sender.representation.descriptor == receiver.representation.state.descriptor
    requires |sender.representation.bytes| == sender.representation.descriptor.encodedLength && Faithful(sender, receiver, mutation)
    modifies carrier, sender`state, receiver.representation, receiver.representation.disk
    ensures carrier.Valid() && (Waiting(sender.state) ==> old(Waiting(sender.state)))
    ensures Survives(receiver.representation.sha, old(receiver.representation.state.descriptor), receiver.representation.disk, receiver.whole)
    ensures receiver.representation.state.sequence <= old(receiver.representation.state.sequence) + 1 + replays
    ensures r.Ok? ==> Booked(a, carrier.events) && Conserved(account, a, x.accepted)
    ensures r.Ok? ==>
              && receiver.Valid() && Moved(old(receiver.DurableState()), account.Stored(), receiver.DurableState(), a.Stored(), x.accepted)
              && (old(receiver.Snapshot().committed) ==> x.accepted == 0)
    ensures r.Ok? ==> Sent(sender, receiver, mutation, x, if old(receiver.Snapshot().committed) then 0 else old(NextLimit(receiver, carrier, profile)))
    ensures r.Ok? ==> Carried(account, a, x, old(NextLimit(receiver, carrier, profile)), replays)
    ensures r == Ok(false) ==> receiver.DurableState() == old(receiver.DurableState())
    ensures r == Ok(true) ==>
              var limit := if old(receiver.Snapshot().committed) then 0 else old(NextLimit(receiver, carrier, profile));
              carrier.spent == old(carrier.spent) + if limit == 0 then 0 else REQUEST_OCTETS + Repeated(x.copies, DATA_OVERHEAD + limit)
    ensures old(receiver.Snapshot().committed) ==>
              r == Ok(true) && unchanged(carrier) && unchanged(sender) && receiver.representation.state == old(receiver.representation.state)
    ensures !old(receiver.Snapshot().committed) && old(carrier.Remaining()) == 0 ==>
              r == Err(SyncFailed(Error.LimitExceeded("representation data request")))
    ensures !old(receiver.Snapshot().committed) && old(NextLimit(receiver, carrier, profile)) > 0
            && mutation == Exact && old(receiver.SavesLeft(1 + replays)) && old(CanAsk(sender, carrier, profile)) ==>
              && r == Ok(true) && Steady(carrier)
              && AllCopies(x, old(NextLimit(receiver, carrier, profile)), replays, old(carrier.Remaining()) - REQUEST_OCTETS)
              && receiver.DurableState() == old(receiver.DurableState()).(
                   content := old(receiver.Content()) + NextOctets(sender, |old(receiver.Content())|, x.accepted))
  {
    hide Booked, Survives, RepresentationSafety.Live, Fills, Totals, Logged, ExactSize, RecordLimit, Representation.Verify, PayloadLimit;
    a, x := account, NO_EXCHANGE;
    receiver.ContentIsPrefix();
    var snapshot := receiver.Snapshot();
    if snapshot.committed {
      return Ok(true), a, x;
    }
    var d, budget := snapshot.descriptor, carrier.Remaining();
    var budgetId := ReceiptId(receiver.representation.sha, d.representationId);
    RequestSize(d, budgetId, budget, snapshot.prefix, 1);
    var request := ExactSize(Record(RequestOp(RepresentationData(Request(d, budgetId, budget, snapshot.prefix, 1))), []));
    if request.Err? {
      return Err(SyncFailed(request.error)), a, x;
    }
    DataSize(Data(d.representationId, snapshot.prefix, [0]));
    var body := ExactSize(Record(DataOp(Data(d.representationId, snapshot.prefix, [0])), []));
    if body.Err? {
      return Err(SyncFailed(body.error)), a, x;
    }
    assert request.value == REQUEST_OCTETS && body.value - 1 == DATA_OVERHEAD;
    var limit := NextLimit(receiver, carrier, profile);
    if limit == 0 {
      return Ok(true), a, x;
    }
    ghost var before := receiver.DurableState();
    r, a, x := Transfer(sender, receiver, carrier, profile, limit, mutation, replays, a);
    if r.Ok? {
      ExchangeMoves(before, account, receiver.DurableState(), a, x.accepted, Taken(NextData(sender, snapshot.prefix, limit), mutation).payload);
    }
  }

  /** What an exchange of at most `limit` octets did to the receiver: nothing, or the next octets as they arrived. */
  twostate predicate Sent(sender: Sender, receiver: Receiver, mutation: Mutation, x: Exchange, limit: nat)
    reads sender, receiver.representation, receiver.representation.disk
  {
    if limit == 0 then
      x == NO_EXCHANGE && receiver.Valid() && receiver.DurableState() == old(receiver.DurableState())
    else
      && old(receiver.Snapshot().prefix) + limit <= |sender.representation.bytes|
      && Exchanged(receiver, NextData(sender, old(receiver.Snapshot().prefix), limit), mutation, x)
  }

  // ---- Receipt ----

  function CommitmentReceipt(sha: Hash, d: Descriptor): Receipt {
    Receipt(d.representationId, RepresentationCommitted, Some(d.contentDigest), ReceiptId(sha, d.representationId), None)
  }

  /** A receipt for octets that verify names their recomputed identity and digest. */
  lemma ReceiptVouches(sha: Hash, d: Descriptor, bytes: Bytes)
    requires Verify(sha, d, bytes)
    ensures var receipt := CommitmentReceipt(sha, d);
            && receipt.status == RepresentationCommitted && receipt.verifiedDigest == Some(sha(bytes)) && receipt.reason.None?
            && RepresentationId(sha, d.schemaFingerprint, d.codecId, d.codecRevision, d.codecParameters, |bytes|, sha(bytes)) == Ok(receipt.subjectId)
            && receipt.idempotencyId == ReceiptId(sha, receipt.subjectId)
  {
  }

  lemma ReceiptIsEncodable(sha: Hash, d: Descriptor)
    ensures ExactSize(Record(ReceiptOp(CommitmentReceipt(sha, d)), [])) == Ok(RECEIPT_OCTETS)
  {
  }

  method SendReceipt(carrier: DeterministicCarrier, profile: Negotiation.Profile, sha: Hash, d: Descriptor, account: Accounting)
    returns (r: Result<bool, ContactError>, a: Accounting)
    requires carrier.Valid() && Booked(account, carrier.events)
    modifies carrier
    ensures carrier.Valid()
    ensures r.Ok? ==> Booked(a, carrier.events) && SamePayload(account, a)
    ensures !old(carrier.disconnected) ==> r.Ok?
    ensures old(Admits(carrier, Some(profile), RECEIPT_OCTETS, RECEIPT_OCTETS)) ==> r == Ok(true)
  {
    hide ExactSize, Booked;
    ReceiptIsEncodable(sha, d);
    var sent;
    sent, a := Send(carrier, Some(profile), ReceiptOp(CommitmentReceipt(sha, d)), ReceiverToSender, account);
    r := if sent.Err? then Err(sent.error) else Ok(sent.value.Some?);
  }

  /** Committed octets without a retained receipt are acknowledged; only a delivered receipt is retained. */
  method Acknowledge(sender: Sender, receiver: Receiver, carrier: DeterministicCarrier, profile: Negotiation.Profile, account: Accounting)
    returns (r: Outcome<ContactError>, a: Accounting)
    requires receiver.Valid() && carrier.Valid() && Booked(account, carrier.events)
    modifies carrier, sender`state, receiver.representation, receiver.representation.disk
    ensures carrier.Valid()
    ensures Survives(receiver.representation.sha, old(receiver.representation.state.descriptor), receiver.representation.disk, receiver.whole)
    ensures receiver.representation.state.sequence <= old(receiver.representation.state.sequence) + 1
    ensures r.Pass? && Waiting(sender.state) ==> receiver.Snapshot().committed || old(Waiting(sender.state))
    ensures r.Pass? ==>
              && Booked(a, carrier.events) && SamePayload(account, a)
              && receiver.Valid()
              && receiver.DurableState() == old(receiver.DurableState()).(receipts := receiver.DurableState().receipts)
              && old(receiver.DurableState()).receipts <= receiver.DurableState().receipts
              && Moved(old(receiver.DurableState()), account.Stored(), receiver.DurableState(), a.Stored(), 0)
    ensures !old(receiver.Snapshot().committed) || (!old(carrier.disconnected) && old(receiver.SavesLeft(1))) ==> r.Pass?
    ensures !old(receiver.Snapshot().committed) ==> a == account && receiver.DurableState() == old(receiver.DurableState()) && unchanged(sender)
    ensures r.Pass? ==>
              var id := ReceiptId(receiver.representation.sha, sender.representation.descriptor.representationId);
              var sent := if old(sender.state) == Sending then AwaitingReceipt else old(sender.state);
              sender.state ==
                if !old(receiver.Snapshot().committed) || id in old(receiver.DurableState()).receipts then old(sender.state)
                else if id in receiver.DurableState().receipts && sent == AwaitingReceipt then Receipted
                else sent
    ensures old(receiver.Snapshot().committed) && old(receiver.SavesLeft(1))
            && old(Admits(carrier, Some(profile), RECEIPT_OCTETS, RECEIPT_OCTETS)) ==>
              ReceiptId(receiver.representation.sha, sender.representation.descriptor.representationId) in receiver.DurableState().receipts
  {
    hide Booked, Survives, ExactSize, RepresentationSafety.Live;
    a := account;
    r := Pass;
    var receipt := CommitmentReceipt(receiver.representation.sha, sender.representation.descriptor);
    if !receiver.Snapshot().committed || receipt.idempotencyId in receiver.representation.state.receipts {
      return;
    }
    if sender.state == Sending {
      sender.state := Transition(sender.state, AwaitingReceipt).value;
    }
    var delivered;
    delivered, a := SendReceipt(carrier, profile, receiver.representation.sha, sender.representation.descriptor, a);
    if delivered.Err? {
      return Fail(delivered.error), a;
    }
    if delivered.value {
      r := receiver.CommitReceipt(receipt.idempotencyId);
      if r.Pass? && sender.state == AwaitingReceipt {
        sender.state := Transition(sender.state, Receipted).value;
      }
    }
  }

  // ---- The whole contact ----

  /**
   Octets are missing, the link is up for good, limit and budget admit a request and some payload after it, nothing is mutated,
   and the store has saves left for the whole contact.
   */
  ghost predicate Clear(sender: Sender, receiver: Receiver, carrier: DeterministicCarrier, profile: Negotiation.Profile,
                        mutation: Mutation, replays: byte)
    reads sender, receiver.representation, carrier
  {
    && !receiver.Snapshot().committed && !receiver.Complete()
    && CanAsk(sender, carrier, profile) && NextLimit(receiver, carrier, profile) > 0
    && mutation == Exact && receiver.SavesLeft(4 + replays)
  }

  /** Uncommitted octets grew into `whole`; complete and verified they were committed. */
  ghost predicate Grown(sha: Hash, before: Held, after: Held, whole: Bytes) {
    if |whole| < before.descriptor.encodedLength then
      after == before.(content := whole)
    else
      Verify(sha, before.descriptor, whole) && ValidateOpaque(whole, before.descriptor) ==>
        after == before.(content := whole, committed := true, receipts := after.receipts)
  }

  /** The sender's octets are the described ones, and the receiver holds a prefix of them. */
  ghost predicate Genuine(sender: Sender, receiver: Receiver)
    reads receiver.representation, receiver.representation.disk
  {
    var d, bytes := sender.representation.descriptor, sender.representation.bytes;
    && Verify(receiver.representation.sha, d, bytes) && ValidateOpaque(bytes, d)
    && receiver.representation.state.descriptor == d && receiver.Content() <= bytes
  }

  /** The profile and the record limit let the whole representation travel in one record. */
  predicate Roomy(d: Descriptor, config: CarrierConfig, profile: Negotiation.Profile) {
    && d.encodedLength <= profile.maxDataPayloadOctets
    && REQUEST_OCTETS <= RecordLimit(config, Some(profile)) <= MAX_RECORD_OCTETS
    && DATA_OVERHEAD + d.encodedLength <= RecordLimit(config, Some(profile))
  }

  /** Everything missing can be requested, sent, committed and acknowledged in what is left of this contact. */
  ghost predicate Ample(sender: Sender, receiver: Receiver, carrier: DeterministicCarrier, profile: Negotiation.Profile)
    reads sender, receiver.representation, receiver.representation.disk, carrier
  {
    && Steady(carrier) && Genuine(sender, receiver) && sender.state != AwaitingReceipt && sender.state != Receipted
    && Roomy(sender.representation.descriptor, carrier.config, profile)
    && REQUEST_OCTETS + DATA_OVERHEAD + |sender.representation.bytes| - |receiver.Content()| + RECEIPT_OCTETS <= carrier.Remaining()
    && receiver.SavesLeft(4)
  }

  /** With ample room the receiver is ready, or one payload of all that is missing makes it so. */
  lemma AmpleMeans(sender: Sender, receiver: Receiver, carrier: DeterministicCarrier, profile: Negotiation.Profile)
    requires receiver.Valid() && Ample(sender, receiver, carrier, profile)
    ensures Ready(receiver) ==> receiver.Content() == sender.representation.bytes
    ensures !Ready(receiver) ==>
              var prefix, missing := |receiver.Content()|, |sender.representation.bytes| - |receiver.Content()|;
              && Clear(sender, receiver, carrier, profile, Exact, 0) && NextLimit(receiver, carrier, profile) == missing
              && receiver.Content() + NextOctets(sender, prefix, missing) == sender.representation.bytes
  {
    receiver.ContentIsPrefix();
    var content, bytes := receiver.Content(), sender.representation.bytes;
    assert content == bytes[..|content|];
    assert bytes[|content|..|bytes|] == bytes[|content|..];
    assert bytes == bytes[..|content|] + bytes[|content|..];
    assert bytes[..|bytes|] == bytes;
  }

  /** Verification of what is already complete, then the data exchange. */
  method Advance(sender: Sender, receiver: Receiver, carrier: DeterministicCarrier, profile: Negotiation.Profile, mutation: Mutation, replays: byte,
                 account: Accounting)
    returns (r: Result<bool, ContactError>, a: Accounting, ghost x: Exchange, ghost limit: nat)
    requires receiver.Valid() && receiver.Snapshot().accepted && carrier.Valid() && Booked(account, carrier.events)
    requires sender.representation.descriptor == receiver.representation.state.descriptor
    requires |sender.representation.bytes| == sender.representation.descriptor.encodedLength && Faithful(sender, receiver, mutation)
    modifies carrier, sender`state, receiver.representation, receiver.representation.disk
    ensures carrier.Valid() && (Waiting(sender.state) ==> old(Waiting(sender.state)))
    ensures Survives(receiver.representation.sha, old(receiver.representation.state.descriptor), receiver.representation.disk, receiver.whole)
    ensures receiver.representation.state.sequence <= old(receiver.representation.state.sequence) + 3 + replays
    ensures r.Ok? ==>
              && Booked(a, carrier.events) && receiver.Valid() && receiver.Snapshot().accepted
              && receiver.DurableState().descriptor == old(receiver.DurableState()).descriptor
              && Moved(old(receiver.DurableState()), account.Stored(), receiver.DurableState(), a.Stored(), x.accepted)
              && (old(receiver.Snapshot().committed) ==> x.accepted == 0)
              && Carried(account, a, x, limit, replays)
    ensures r == Ok(false) && Ready(receiver) ==> receiver.Snapshot().committed
    ensures old(Clear(sender, receiver, carrier, profile, mutation, replays)) ==>
              && r == Ok(true) && limit == old(NextLimit(receiver, carrier, profile)) && Steady(carrier)
              && receiver.SavesLeft(3) && AllCopies(x, limit, replays, old(carrier.Remaining()) - REQUEST_OCTETS)
              && carrier.spent == old(carrier.spent) + REQUEST_OCTETS + Repeated(x.copies, DATA_OVERHEAD + limit)
              && receiver.DurableState() == old(receiver.DurableState()).(
                   content := old(receiver.Content()) + NextOctets(sender, |old(receiver.Content())|, limit))
    ensures old(Ready(receiver)) && old(receiver.SavesLeft(4)) ==>
              && r == Ok(true) && unchanged(carrier) && unchanged(sender) && receiver.SavesLeft(2)
              && receiver.Snapshot().committed && receiver.Content() == old(receiver.Content())
  {
    hide Booked, Survives, NextLimit, RepresentationSafety.Live, Representation.Verify, DeterministicCarrier.Valid, RecordLimit,
         ValidateOpaque, Conserved,
         Sent, NextOctets, CanAsk, PayloadLimit, Faithful, Repeated, Fills, HeldReady, Receiver.Passes, Receiver.Content,
         Carried;
    a, x, limit := account, NO_EXCHANGE, 0;
    receiver.ContentIsPrefix();
    ghost var s := receiver.DurableState();
    var verified;
    verified, a := VerifyAndCommit(receiver, a, carrier.events);
    if verified.Fail? {
      return Err(verified.error), a, x, limit;
    }
    ghost var t, b := receiver.DurableState(), a;
    ReadyMeans(receiver);
    limit := NextLimit(receiver, carrier, profile);
    r, a, x := RequestData(sender, receiver, carrier, profile, mutation, replays, a);
    if r.Ok? {
      MovedOn(s, account.Stored(), t, b.Stored(), 0, receiver.DurableState(), a.Stored(), x.accepted);
      CarriedBetween(account, b, a, a, x, limit, replays);
      ReadyMeans(receiver);
    }
  }

  /** The octets are committed and their receipt is retained. */
  ghost predicate Settled(sender: Sender, receiver: Receiver)
    reads receiver.representation, receiver.representation.disk
  {
    && receiver.Snapshot().committed
    && ReceiptId(receiver.representation.sha, sender.representation.descriptor.representationId) in receiver.DurableState().receipts
  }

  /** Verification of what the exchange completed, then the receipt. */
  method Conclude(sender: Sender, receiver: Receiver, carrier: DeterministicCarrier, profile: Negotiation.Profile, account: Accounting)
    returns (r: Outcome<ContactError>, a: Accounting)
    requires receiver.Valid() && receiver.Snapshot().accepted && carrier.Valid() && Booked(account, carrier.events)
    modifies carrier, sender`state, receiver.representation, receiver.representation.disk
    ensures carrier.Valid()
    ensures Survives(receiver.representation.sha, old(receiver.representation.state.descriptor), receiver.representation.disk, receiver.whole)
    ensures receiver.representation.state.sequence <= old(receiver.representation.state.sequence) + 3
    ensures r.Pass? && Waiting(sender.state) ==> receiver.Snapshot().committed || old(Waiting(sender.state))
    ensures r.Pass? ==>
              && Booked(a, carrier.events) && receiver.Valid()
              && a.payloadSubmitted == account.payloadSubmitted && a.payloadDelivered == account.payloadDelivered
              && Moved(old(receiver.DurableState()), account.Stored(), receiver.DurableState(), a.Stored(), 0)
    ensures old(Steady(carrier)) && old(receiver.SavesLeft(3)) ==> r.Pass?
    ensures r.Pass? && Ready(receiver) ==> receiver.Snapshot().committed
    ensures r.Pass? && !old(receiver.Snapshot().committed) ==>
              Grown(receiver.representation.sha, old(receiver.DurableState()), receiver.DurableState(), old(receiver.Content()))
    ensures old(Ready(receiver)) && old(Admits(carrier, Some(profile), RECEIPT_OCTETS, RECEIPT_OCTETS))
            && old(receiver.SavesLeft(if receiver.Snapshot().committed then 1 else 3)) ==>
              r.Pass? && Settled(sender, receiver) && receiver.Content() == old(receiver.Content())
  {
    hide Booked, Survives, RepresentationSafety.Live;
    a := account;
    receiver.ContentIsPrefix();
    ghost var s := receiver.DurableState();
    r, a := VerifyAndCommit(receiver, a, carrier.events);
    if r.Fail? {
      return;
    }
    ghost var t, b := receiver.DurableState(), a.Stored();
    r, a := Acknowledge(sender, receiver, carrier, profile, a);
    if r.Pass? {
      MovedOn(s, account.Stored(), t, b, 0, receiver.DurableState(), a.Stored(), 0);
    }
  }

  lemma GrownFromContent(sha: Hash, s: Held, t: Held, u: Held)
    requires t == s.(content := t.content) && Grown(sha, t, u, t.content)
    ensures Grown(sha, s, u, t.content)
  {
  }
}
