/** One integrated contact: its phases in turn under one carrier opportunity, its report, and what it achieves. */
module Contacts {
  import opened Wrappers
  import opened Octets
  import opened Representation
  import opened Operations
  import opened Carriers
  import opened Accounts
  import opened Submission
  import opened Endpoints
  import opened ContactPhases
  import Negotiation
  import ProtocolSpec

  /** Which endpoint processes are recreated before a contact. */
  datatype EndpointRestart = Neither | SenderOnly | ReceiverOnly | Both

  datatype ContactPlan = ContactPlan(
    carrier: CarrierConfig,
    restart: EndpointRestart,
    discard: bool,
    source: AuthorizedSource,
    mutation: Mutation,
    replays: byte)

  datatype ContactReport = ContactReport(
    plan: ContactPlan,
    prefixBefore: nat,
    prefixAfter: nat,
    committed: bool,
    receiptCommitted: bool,
    account: Accounting,
    carrier: CarrierMetrics,
    sender: SenderState)

  // ---- Behind negotiation and offer ----

  /** Everything behind negotiation and offer. */
  method MoveBody(sender: Sender, receiver: Receiver, carrier: DeterministicCarrier, profile: Negotiation.Profile, mutation: Mutation, replays: byte,
                  account: Accounting)
    returns (r: Outcome<ContactError>, a: Accounting, ghost x: Exchange, ghost limit: nat)
    requires receiver.Valid() && receiver.Snapshot().accepted && carrier.Valid() && Booked(account, carrier.events)
    requires sender.representation.descriptor == receiver.representation.state.descriptor
    requires |sender.representation.bytes| == sender.representation.descriptor.encodedLength && Faithful(sender, receiver, mutation)
    modifies carrier, sender`state, receiver.representation, receiver.representation.disk
    ensures carrier.Valid()
    ensures Survives(receiver.representation.sha, old(receiver.representation.state.descriptor), receiver.representation.disk, receiver.whole)
    ensures receiver.representation.state.sequence <= old(receiver.representation.state.sequence) + 6 + replays
    ensures r.Pass? && Waiting(sender.state) ==> receiver.Snapshot().committed || old(Waiting(sender.state))
    ensures r.Pass? ==>
              && Booked(a, carrier.events) && receiver.Valid() && receiver.DurableState().descriptor == old(receiver.DurableState()).descriptor
              && Moved(old(receiver.DurableState()), account.Stored(), receiver.DurableState(), a.Stored(), x.accepted)
              && (old(receiver.Snapshot().committed) ==> x.accepted == 0)
              && Carried(account, a, x, limit, replays) && (Ready(receiver) ==> receiver.Snapshot().committed)
    ensures old(Clear(sender, receiver, carrier, profile, mutation, replays)) ==>
              && r.Pass? && limit == old(NextLimit(receiver, carrier, profile))
              && AllCopies(x, limit, replays, old(carrier.Remaining()) - REQUEST_OCTETS)
              && Grown(receiver.representation.sha, old(receiver.DurableState()), receiver.DurableState(),
                       old(receiver.Content()) + NextOctets(sender, |old(receiver.Content())|, limit))
    ensures old(Ready(receiver)) && old(receiver.SavesLeft(4)) && old(Admits(carrier, Some(profile), RECEIPT_OCTETS, RECEIPT_OCTETS)) ==>
              r.Pass? && Settled(sender, receiver) && receiver.Content() == old(receiver.Content())
    ensures old(Ample(sender, receiver, carrier, profile)) && mutation == Exact && replays == 0 ==>
              r.Pass? && Settled(sender, receiver) && receiver.Content() == sender.representation.bytes
  {
    hide Booked, Survives, RepresentationSafety.Live, Representation.Verify, DeterministicCarrier.Valid, ValidateOpaque, Moved, Grown, NextLimit,
         Carried, Receiver.Content, RecordLimit;
    if Ample(sender, receiver, carrier, profile) {
      AmpleMeans(sender, receiver, carrier, profile);
    }
    ghost var s := receiver.DurableState();
    var going;
    going, a, x, limit := Advance(sender, receiver, carrier, profile, mutation, replays, account);
    if going.Err? {
      return Fail(going.error), a, x, limit;
    }
    r := Pass;
    if old(Ample(sender, receiver, carrier, profile)) && mutation == Exact && replays == 0 {
      receiver.ContentIsPrefix();
      assert receiver.Content() == sender.representation.bytes;
      assert Ready(receiver);
      assert Admits(carrier, Some(profile), RECEIPT_OCTETS, RECEIPT_OCTETS);
    }
    if going.value {
      ghost var t, b := receiver.DurableState(), a;
      r, a := Conclude(sender, receiver, carrier, profile, a);
      if r.Pass? {
        CarriedBetween(account, account, b, a, x, limit, replays);
        MovedOn(s, account.Stored(), t, b.Stored(), x.accepted, receiver.DurableState(), a.Stored(), 0);
        if t == s.(content := t.content) && !t.committed {
          GrownFromContent(receiver.representation.sha, s, t, receiver.DurableState());
        }
      }
    }
  }

  /** A contact that starts with everything agreed, octets missing and an opportunity that admits a request and some payload. */
  ghost predicate ClearContact(sender: Sender, receiver: Receiver, plan: ContactPlan, profile: Negotiation.Profile)
    reads sender, receiver.representation
  {
    var snapshot, recordLimit := receiver.Snapshot(), RecordLimit(plan.carrier, Some(profile));
    && sender.Authorizes(plan.source) && sender.representation.descriptor == snapshot.descriptor
    && sender.state != AwaitingReceipt && sender.state != Receipted
    && snapshot.accepted && !snapshot.committed && !receiver.Complete() && receiver.SavesLeft(4 + plan.replays)
    && plan.carrier.Valid() && plan.carrier.disconnectAfterMs.None? && plan.mutation == Exact
    && REQUEST_OCTETS <= recordLimit <= MAX_RECORD_OCTETS
    && FirstLimit(receiver, plan, profile) > 0
  }

  /** How much payload a contact can carry that has spent nothing yet. */
  function FirstLimit(receiver: Receiver, plan: ContactPlan, profile: Negotiation.Profile): nat
    reads receiver.representation
  {
    PayloadLimit(Less(receiver.Snapshot().descriptor.encodedLength, receiver.Snapshot().prefix), profile.maxDataPayloadOctets,
                 RecordLimit(plan.carrier, Some(profile)), plan.carrier.byteBudget)
  }

  /** What a returned report says about the octets before and after and about the carrier. */
  ghost predicate Reported(sha: Hash, plan: ContactPlan, before: Held, after: Held, report: ContactReport, x: Exchange, limit: nat) {
    var a := report.account;
    && report.plan == plan
    && report.prefixBefore == |before.content| && report.prefixAfter == |after.content|
    && report.committed == after.committed
    && (after.committed ==> Verify(sha, after.descriptor, after.content))
    && (report.receiptCommitted <==> ReceiptId(sha, after.descriptor.representationId) in after.receipts)
    && (report.receiptCommitted ==> report.committed)
    && Moved(before, BLANK, after, a.Stored(), x.accepted)
    && x.copies <= 1 + plan.replays && a.payloadSubmitted == Repeated(x.copies, limit) && a.payloadDelivered == x.delivered
    && a.Total() == OperationTotal(a.operations) == a.predicted == report.carrier.submittedBytes <= plan.carrier.byteBudget
    && a.quoteError == 0 && Directed(a)
    && a.CarrierTotal() == report.carrier.carrierBytes
    && a.sizeChecks == report.carrier.submittedRecords == report.carrier.deliveredRecords + report.carrier.lostRecords
    && report.carrier.lostRecords <= 1
    && a.payloadDelivered <= a.payloadSubmitted <= a.Total()
  }

  /**
   Representation progress of one contact: without an integrity failure, what was delivered is what is newly durable
   plus what was repeated.
   */
  lemma DeliveredIsDurable(sha: Hash, plan: ContactPlan, before: Held, after: Held, report: ContactReport, x: Exchange, limit: nat)
    requires Reported(sha, plan, before, after, report, x, limit)
    ensures report.account.integrityFailures == 0 ==>
              && report.prefixBefore <= report.prefixAfter
              && report.account.payloadDelivered == report.prefixAfter - report.prefixBefore + report.account.payloadDuplicate
    ensures report.account.payloadDuplicate <= report.account.payloadDelivered
  {
  }

  /**
   Replays of a contact that carries all copies it has room for: every payload submitted is delivered, and all of it but the first payload is counted as
   repeated; with room for them all there are as many as the plan asks for.
   */
  lemma ReplaysAreCounted(sha: Hash, plan: ContactPlan, before: Held, after: Held, report: ContactReport, x: Exchange, limit: nat)
    requires Reported(sha, plan, before, after, report, x, limit) && limit > 0 && AllCopies(x, limit, plan.replays, x.room)
    ensures x.copies >= 1
    ensures report.account.payloadDelivered == report.account.payloadSubmitted == Repeated(x.copies, limit)
    ensures report.account.payloadDuplicate == Repeated(x.copies - 1, limit)
    ensures Repeated(1 + plan.replays, DATA_OVERHEAD + limit) <= x.room ==> x.copies == 1 + plan.replays
  {
    if Repeated(1 + plan.replays, DATA_OVERHEAD + limit) <= x.room {
      FillsOnce(x.copies, 1 + plan.replays, 1 + plan.replays, DATA_OVERHEAD + limit, x.room);
    }
  }

  /** The report, read off the receiver, the books and the carrier. */
  method Report(sender: Sender, receiver: Receiver, carrier: DeterministicCarrier, plan: ContactPlan, prefixBefore: nat, account: Accounting,
                ghost before: Held, ghost x: Exchange, ghost limit: nat)
    returns (report: ContactReport)
    requires receiver.Valid() && carrier.Valid() && carrier.config == plan.carrier && Booked(account, carrier.events)
    requires Moved(before, BLANK, receiver.DurableState(), account.Stored(), x.accepted) && prefixBefore == |before.content|
    requires x.copies <= 1 + plan.replays && account.payloadSubmitted == Repeated(x.copies, limit) && account.payloadDelivered == x.delivered
    ensures Reported(receiver.representation.sha, plan, before, receiver.DurableState(), report, x, limit) && report.sender == sender.state
  {
    receiver.ContentIsPrefix();
    BookedTotals(account, carrier.events);
    AtMostOneLost(carrier.config, carrier.events);
    var snapshot := receiver.Snapshot();
    var receipt := ReceiptId(receiver.representation.sha, snapshot.descriptor.representationId);
    report := ContactReport(plan, prefixBefore, snapshot.prefix, snapshot.committed, receipt in receiver.representation.state.receipts,
                            account, carrier.metrics, sender.state);
  }

  // ---- Openings ----

  /** The octets of negotiation and offer. */
  function IntroOctets(d: Descriptor): nat {
    2 * CAPABILITIES_OCTETS + SUMMARY_OCTETS + OfferOctets(d)
  }

  /** The octets of a contact that carries the whole representation with everything around it. */
  function ContactOctets(d: Descriptor): nat {
    IntroOctets(d) + REQUEST_OCTETS + DATA_OVERHEAD + d.encodedLength + RECEIPT_OCTETS
  }

  /** The octets of a contact that gets one octet further. */
  function StartOctets(d: Descriptor): nat {
    IntroOctets(d) + REQUEST_OCTETS + DATA_OVERHEAD + 1
  }

  /** An opportunity, over a link that stays up, for all there is to say when `held` octets are there and this profile is cached. */
  predicate Suffices(d: Descriptor, config: CarrierConfig, remaining: nat, cached: Option<Negotiation.Profile>, held: nat) {
    var limit := RecordLimit(config, cached);
    && config.disconnectAfterMs.None?
    && OfferOctets(d) <= limit <= MAX_RECORD_OCTETS && DATA_OVERHEAD + d.encodedLength <= limit
    && (cached.Some? ==> d.encodedLength <= cached.value.maxDataPayloadOctets)
    && ContactOctets(d) <= remaining + held
  }

  /** A carrier whose link stays up, whose records take the offer, and whose budget takes a contact that gets one octet further. */
  predicate Admissible(d: Descriptor, config: CarrierConfig) {
    && config.Valid() && config.disconnectAfterMs.None?
    && OfferOctets(d) <= config.maxRecordBytes && StartOctets(d) <= config.byteBudget
  }

  /** Whatever is still to be negotiated and offered can be. */
  ghost predicate Opens(sender: Sender, receiver: Receiver, config: CarrierConfig, remaining: nat, peer: Octets32, now: u64)
    reads sender, receiver.protocol, receiver.representation
  {
    var d, cached := sender.representation.descriptor, ProtocolSpec.CachedNegotiation(receiver.protocol.state, peer, now);
    && config.disconnectAfterMs.None? && receiver.representation.state.descriptor == d
    && (receiver.Snapshot().accepted || sender.state == Available)
    && OfferOctets(d) <= RecordLimit(config, cached) && IntroOctets(d) <= remaining
    && receiver.SavesLeft(1) && receiver.protocol.state.sequence < U64_MAX
  }

  /** Negotiation and offer, as far as the profile and the receiver still need them. */
  method Introduce(sender: Sender, receiver: Receiver, carrier: DeterministicCarrier, peer: Octets32, now: u64, account: Accounting)
    returns (r: Result<Option<Negotiation.Profile>, ContactError>, a: Accounting)
    requires receiver.Valid() && receiver.protocol.Valid() && carrier.Valid() && Booked(account, carrier.events)
    modifies carrier, sender`state, receiver.protocol, receiver.protocol.slots, receiver.representation, receiver.representation.disk
    ensures carrier.Valid() && (sender.state == old(sender.state) || sender.state == Offered)
    ensures Survives(receiver.representation.sha, old(receiver.representation.state.descriptor), receiver.representation.disk, receiver.whole)
    ensures receiver.representation.state.sequence <= old(receiver.representation.state.sequence) + 1
    ensures KeepsSlots(receiver.protocol, sender.representation.descriptor, carrier.config, peer)
    ensures r.Ok? ==> Remembers(receiver.protocol, sender.representation.descriptor, carrier.config, peer, now)
    ensures r.Ok? ==>
              && Booked(a, carrier.events) && SamePayload(account, a) && receiver.Valid()
              && Moved(old(receiver.DurableState()), account.Stored(), receiver.DurableState(), a.Stored(), 0)
              && receiver.DurableState() == old(receiver.DurableState()).(accepted := old(receiver.DurableState()).accepted || r.value.Some?)
    ensures var cached := ProtocolSpec.CachedNegotiation(old(receiver.protocol.state), peer, now);
            && (cached.Some? && old(receiver.Snapshot().accepted) ==>
                  && r == Ok(cached) && a == account && unchanged(carrier) && unchanged(sender)
                  && unchanged(receiver.representation) && unchanged(receiver.representation.disk))
            && (r.Ok? && r.value.Some? ==>
                  if cached.Some? then r.value == cached else Negotiated(sender.representation.descriptor, carrier.config, r.value.value))
    ensures !old(carrier.disconnected) && old(Opens(sender, receiver, carrier.config, carrier.Remaining(), peer, now)) ==>
              && r.Ok? && r.value.Some? && Steady(carrier)
              && carrier.spent <= old(carrier.spent) + IntroOctets(sender.representation.descriptor)
              && sender.state == if old(receiver.Snapshot().accepted) then old(sender.state) else Offered
  {
    hide Booked, Survives, RepresentationSafety.Live, DeterministicCarrier.Valid, KeepsSlots, Remembers;
    receiver.ContentIsPrefix();
    r, a := Negotiate(receiver, carrier, sender.representation.descriptor, peer, now, account);
    if r.Err? || r.value.None? {
      return;
    }
    var offered;
    offered, a := MakeOffer(sender, receiver, carrier, r.value.value, a);
    if offered.Err? {
      return Err(offered.error), a;
    }
    if !offered.value {
      r := Ok(None);
    }
  }

  /** A profile that was cached or negotiated keeps the record limit, and takes all payload if the cached one did. */
  lemma AgreedLimits(d: Descriptor, config: CarrierConfig, cached: Option<Negotiation.Profile>, profile: Negotiation.Profile)
    requires d.Valid() && if cached.Some? then profile == cached.value else Negotiated(d, config, profile)
    ensures RecordLimit(config, Some(profile)) == RecordLimit(config, cached)
    ensures cached.None? ==> d.encodedLength <= profile.maxDataPayloadOctets && profile.maxDataPayloadOctets > 0
  {
  }

  /** What a sufficient opportunity is once negotiation and offer are behind. */
  lemma SufficientIsAmple(sender: Sender, receiver: Receiver, carrier: DeterministicCarrier, remaining: nat, cached: Option<Negotiation.Profile>,
                          profile: Negotiation.Profile)
    requires Genuine(sender, receiver) && Suffices(sender.representation.descriptor, carrier.config, remaining, cached, |receiver.Content()|)
    requires if cached.Some? then profile == cached.value else Negotiated(sender.representation.descriptor, carrier.config, profile)
    requires Steady(carrier) && remaining <= carrier.Remaining() + IntroOctets(sender.representation.descriptor)
    requires !Waiting(sender.state) && receiver.SavesLeft(4)
    ensures Ample(sender, receiver, carrier, profile)
  {
    AgreedLimits(sender.representation.descriptor, carrier.config, cached, profile);
  }

  // ---- Getting further ----

  /** Octets the receiver still lacks. */
  ghost function Left(sender: Sender, receiver: Receiver): int
    reads receiver.representation, receiver.representation.disk
  {
    |sender.representation.bytes| - |receiver.Content()|
  }

  /** Behind negotiation and offer: the contact can carry one more octet of the representation, or the receipt for all of it. */
  ghost predicate Moves(sender: Sender, receiver: Receiver, carrier: DeterministicCarrier, profile: Negotiation.Profile, replays: byte)
    reads sender, receiver.representation, receiver.representation.disk, carrier
  {
    && Steady(carrier) && Genuine(sender, receiver) && (Waiting(sender.state) ==> receiver.Snapshot().committed)
    && OfferOctets(sender.representation.descriptor) <= RecordLimit(carrier.config, Some(profile)) <= MAX_RECORD_OCTETS
    && profile.maxDataPayloadOctets > 0 && REQUEST_OCTETS + DATA_OVERHEAD + 1 <= carrier.Remaining() && receiver.SavesLeft(6 + replays)
  }

  /** What an admissible opportunity is once negotiation and offer are behind. */
  lemma AdmissibleMoves(sender: Sender, receiver: Receiver, carrier: DeterministicCarrier, cached: Option<Negotiation.Profile>,
                        profile: Negotiation.Profile, replays: byte)
    requires Genuine(sender, receiver) && Admissible(sender.representation.descriptor, carrier.config)
    requires cached.Some? ==> Fit(sender.representation.descriptor, cached.value)
    requires if cached.Some? then profile == cached.value else Negotiated(sender.representation.descriptor, carrier.config, profile)
    requires Steady(carrier) && carrier.config.byteBudget <= carrier.Remaining() + IntroOctets(sender.representation.descriptor)
    requires InPhase(sender, receiver) && receiver.SavesLeft(6 + replays)
    ensures Moves(sender, receiver, carrier, profile, replays)
  {
    AgreedLimits(sender.representation.descriptor, carrier.config, cached, profile);
    ParametersAreBounded(sender.representation.descriptor);
  }

  lemma MovesMeans(sender: Sender, receiver: Receiver, carrier: DeterministicCarrier, profile: Negotiation.Profile, replays: byte)
    requires receiver.Valid() && Moves(sender, receiver, carrier, profile, replays)
    ensures Ready(receiver) <==> Left(sender, receiver) == 0
    ensures Ready(receiver) ==> Admits(carrier, Some(profile), RECEIPT_OCTETS, RECEIPT_OCTETS)
    ensures !Ready(receiver) ==>
              Clear(sender, receiver, carrier, profile, Exact, replays) && 0 < NextLimit(receiver, carrier, profile) <= Left(sender, receiver)
  {
    receiver.ContentIsPrefix();
    if Left(sender, receiver) == 0 {
      assert receiver.Content() == sender.representation.bytes;
    }
  }

  /** Genuine octets that grow by a part of the sender's stay genuine. */
  lemma GrownIsGenuine(sha: Hash, sender: Sender, before: Held, after: Held, limit: nat)
    requires Verify(sha, sender.representation.descriptor, sender.representation.bytes)
    requires ValidateOpaque(sender.representation.bytes, sender.representation.descriptor)
    requires before.descriptor == sender.representation.descriptor && before.content <= sender.representation.bytes
    requires |before.content| + limit <= |sender.representation.bytes|
    requires Grown(sha, before, after, before.content + NextOctets(sender, |before.content|, limit))
    ensures after.content == sender.representation.bytes[..|before.content| + limit]
    ensures after.accepted == before.accepted && after.descriptor == before.descriptor
  {
    var bytes, n := sender.representation.bytes, |before.content|;
    assert before.content + bytes[n..n + limit] == bytes[..n + limit];
    assert bytes[..|bytes|] == bytes;
  }

  /** The receiver got further: at least one more of the sender's octets, or with none left the commitment and the retained receipt. */
  twostate predicate GotFurther(sender: Sender, receiver: Receiver)
    reads receiver.representation, receiver.representation.disk
  {
    && Genuine(sender, receiver) && receiver.Snapshot().accepted
    && if old(Left(sender, receiver)) == 0 then Settled(sender, receiver) else Left(sender, receiver) < old(Left(sender, receiver))
  }

  /** Everything behind negotiation and offer gets the receiver further where the opportunity admits it. */
  method MoveOn(sender: Sender, receiver: Receiver, carrier: DeterministicCarrier, profile: Negotiation.Profile, mutation: Mutation, replays: byte,
                account: Accounting)
    returns (r: Outcome<ContactError>, a: Accounting, ghost x: Exchange, ghost limit: nat)
    requires receiver.Valid() && receiver.Snapshot().accepted && carrier.Valid() && Booked(account, carrier.events)
    requires sender.representation.descriptor == receiver.representation.state.descriptor
    requires |sender.representation.bytes| == sender.representation.descriptor.encodedLength && Faithful(sender, receiver, mutation)
    modifies carrier, sender`state, receiver.representation, receiver.representation.disk
    ensures carrier.Valid()
    ensures Survives(receiver.representation.sha, old(receiver.representation.state.descriptor), receiver.representation.disk, receiver.whole)
    ensures receiver.representation.state.sequence <= old(receiver.representation.state.sequence) + 6 + replays
    ensures r.Pass? && Waiting(sender.state) ==> receiver.Snapshot().committed || old(Waiting(sender.state))
    ensures r.Pass? ==>
              && Booked(a, carrier.events) && receiver.Valid() && receiver.DurableState().descriptor == old(receiver.DurableState()).descriptor
              && Moved(old(receiver.DurableState()), account.Stored(), receiver.DurableState(), a.Stored(), x.accepted)
              && (old(receiver.Snapshot().committed) ==> x.accepted == 0)
              && Carried(account, a, x, limit, replays) && (Ready(receiver) ==> receiver.Snapshot().committed)
    ensures old(Clear(sender, receiver, carrier, profile, mutation, replays)) ==>
              && r.Pass? && limit == old(NextLimit(receiver, carrier, profile))
              && AllCopies(x, limit, replays, old(carrier.Remaining()) - REQUEST_OCTETS)
              && Grown(receiver.representation.sha, old(receiver.DurableState()), receiver.DurableState(),
                       old(receiver.Content()) + NextOctets(sender, |old(receiver.Content())|, limit))
    ensures old(Ample(sender, receiver, carrier, profile)) && mutation == Exact && replays == 0 ==>
              r.Pass? && Settled(sender, receiver) && receiver.Content() == sender.representation.bytes
    ensures old(Moves(sender, receiver, carrier, profile, replays)) && mutation == Exact ==>
              && r.Pass? && GotFurther(sender, receiver)
              && (old(Left(sender, receiver)) > 0 ==> limit > 0 && AllCopies(x, limit, replays, old(carrier.Remaining()) - REQUEST_OCTETS))
  {
    hide Booked, Survives, RepresentationSafety.Live, DeterministicCarrier.Valid, Moved, Grown, Ample, NextLimit, Representation.Verify,
         ValidateOpaque, Clear, Ready, NextOctets, Repeated;
    if Moves(sender, receiver, carrier, profile, replays) {
      MovesMeans(sender, receiver, carrier, profile, replays);
    }
    ghost var s := receiver.DurableState();
    r, a, x, limit := MoveBody(sender, receiver, carrier, profile, mutation, replays, account);
    if old(Moves(sender, receiver, carrier, profile, replays) && !Ready(receiver)) && mutation == Exact {
      GrownIsGenuine(receiver.representation.sha, sender, s, receiver.DurableState(), limit);
    }
  }

  // ---- The whole conversation ----

  /** A contact, authorized and without mutation or replay, whose opportunity takes everything there is to say. */
  ghost predicate GenerousContact(sender: Sender, receiver: Receiver, plan: ContactPlan, peer: Octets32, now: u64)
    reads sender, receiver.protocol, receiver.representation, receiver.representation.disk
  {
    var cached := ProtocolSpec.CachedNegotiation(receiver.protocol.state, peer, now);
    && sender.Authorizes(plan.source) && plan.carrier.Valid() && plan.mutation == Exact && plan.replays == 0
    && Genuine(sender, receiver)
    && Suffices(sender.representation.descriptor, plan.carrier, plan.carrier.byteBudget, cached, |receiver.Content()|)
    && !Waiting(sender.state) && (receiver.Snapshot().accepted || sender.state == Available)
    && receiver.SavesLeft(5) && receiver.protocol.state.sequence < U64_MAX
  }

  /** An authorized contact without mutation over an admissible carrier, between ends that have not lost each other. */
  ghost predicate GoodContact(sender: Sender, receiver: Receiver, plan: ContactPlan, peer: Octets32, now: u64)
    reads sender, receiver.protocol, receiver.representation, receiver.representation.disk
  {
    var d, cached := sender.representation.descriptor, ProtocolSpec.CachedNegotiation(receiver.protocol.state, peer, now);
    && sender.Authorizes(plan.source) && plan.mutation == Exact && Admissible(d, plan.carrier)
    && Genuine(sender, receiver) && (cached.Some? ==> Fit(d, cached.value))
    && (Waiting(sender.state) ==> receiver.Snapshot().committed) && (receiver.Snapshot().accepted || sender.state == Available)
    && receiver.SavesLeft(7 + plan.replays) && receiver.protocol.state.sequence < U64_MAX
  }

  lemma ContactOpens(sender: Sender, receiver: Receiver, plan: ContactPlan, peer: Octets32, now: u64)
    requires GenerousContact(sender, receiver, plan, peer, now) || GoodContact(sender, receiver, plan, peer, now)
    ensures Opens(sender, receiver, plan.carrier, plan.carrier.byteBudget, peer, now)
  {
    assert Verify(receiver.representation.sha, sender.representation.descriptor, sender.representation.bytes);
    assert |receiver.Content()| <= sender.representation.descriptor.encodedLength;
    ParametersAreBounded(sender.representation.descriptor);
  }

  /**
   What opportunities of three kinds are good for, and that a contact that ends well behind its introduction leaves no
   verified octets uncommitted.
   */
  twostate predicate Fares(sender: Sender, receiver: Receiver, plan: ContactPlan, peer: Octets32, now: u64, ok: bool,
                          x: Exchange, limit: nat)
    reads receiver.representation, receiver.representation.disk
  {
    && (var cached := ProtocolSpec.CachedNegotiation(old(receiver.protocol.state), peer, now);
        cached.Some? && old(ClearContact(sender, receiver, plan, cached.value)) ==>
          && ok && limit == old(FirstLimit(receiver, plan, cached.value))
          && AllCopies(x, limit, plan.replays, plan.carrier.byteBudget - REQUEST_OCTETS)
          && Grown(receiver.representation.sha, old(receiver.DurableState()), receiver.DurableState(),
                   old(receiver.Content()) + NextOctets(sender, |old(receiver.Content())|, limit)))
    && (ok && ProtocolSpec.CachedNegotiation(old(receiver.protocol.state), peer, now).Some? && old(receiver.Snapshot()).accepted
        && Ready(receiver) ==>
          receiver.Snapshot().committed)
    && (old(GenerousContact(sender, receiver, plan, peer, now)) ==>
          ok && Settled(sender, receiver) && receiver.Content() == sender.representation.bytes)
    && (old(GoodContact(sender, receiver, plan, peer, now)) ==>
          && ok && GotFurther(sender, receiver)
          && (old(Left(sender, receiver)) > 0 ==>
                && limit > 0 && AllCopies(x, limit, plan.replays, x.room)
                && plan.carrier.byteBudget <= x.room + IntroOctets(sender.representation.descriptor) + REQUEST_OCTETS))
  }

  /** The sender waits for a receipt, or has it, only once the octets are committed. */
  predicate InPhase(sender: Sender, receiver: Receiver)
    reads sender`state, receiver.representation
  {
    Waiting(sender.state) ==> receiver.Snapshot().committed
  }

  lemma ClearFromTheStart(sender: Sender, receiver: Receiver, carrier: DeterministicCarrier, plan: ContactPlan, profile: Negotiation.Profile)
    requires carrier.config == plan.carrier && carrier.spent == 0 && (carrier.disconnected <==> plan.carrier.disconnectAfterMs == Some(0))
    requires ClearContact(sender, receiver, plan, profile)
    ensures Clear(sender, receiver, carrier, profile, plan.mutation, plan.replays) && receiver.Snapshot().accepted
    ensures NextLimit(receiver, carrier, profile) == FirstLimit(receiver, plan, profile)
  {
  }

  /** Negotiation and offer leave room for the rest: all of it in a generous contact, one step in a good one. */
  method Reach(sender: Sender, receiver: Receiver, carrier: DeterministicCarrier, plan: ContactPlan, peer: Octets32, now: u64, account: Accounting)
    returns (r: Result<Option<Negotiation.Profile>, ContactError>, a: Accounting)
    requires receiver.Valid() && receiver.protocol.Valid() && carrier.Valid() && Booked(account, carrier.events)
    requires carrier.config == plan.carrier && carrier.spent == 0 && (carrier.disconnected <==> plan.carrier.disconnectAfterMs == Some(0))
    modifies carrier, sender`state, receiver.protocol, receiver.protocol.slots, receiver.representation, receiver.representation.disk
    ensures carrier.Valid() && (sender.state == old(sender.state) || sender.state == Offered)
    ensures Survives(receiver.representation.sha, old(receiver.representation.state.descriptor), receiver.representation.disk, receiver.whole)
    ensures receiver.representation.state.sequence <= old(receiver.representation.state.sequence) + 1
    ensures KeepsSlots(receiver.protocol, sender.representation.descriptor, plan.carrier, peer)
    ensures r.Ok? ==> Remembers(receiver.protocol, sender.representation.descriptor, plan.carrier, peer, now)
    ensures r.Ok? ==>
              && Booked(a, carrier.events) && SamePayload(account, a) && receiver.Valid()
              && Moved(old(receiver.DurableState()), account.Stored(), receiver.DurableState(), a.Stored(), 0)
              && receiver.DurableState() == old(receiver.DurableState()).(accepted := old(receiver.DurableState()).accepted || r.value.Some?)
    ensures var cached := ProtocolSpec.CachedNegotiation(old(receiver.protocol.state), peer, now);
            cached.Some? && old(receiver.Snapshot().accepted) ==>
              && r == Ok(cached) && a == account && unchanged(carrier) && unchanged(sender)
              && unchanged(receiver.representation) && unchanged(receiver.representation.disk)
    ensures old(GenerousContact(sender, receiver, plan, peer, now)) ==>
              r.Ok? && r.value.Some? && Ample(sender, receiver, carrier, r.value.value) && plan.mutation == Exact && plan.replays == 0
    ensures old(GoodContact(sender, receiver, plan, peer, now)) ==>
              && r.Ok? && r.value.Some? && Moves(sender, receiver, carrier, r.value.value, plan.replays) && plan.mutation == Exact
              && plan.carrier.byteBudget <= carrier.Remaining() + IntroOctets(sender.representation.descriptor)
              && Left(sender, receiver) == old(Left(sender, receiver))
  {
    hide Booked, Survives, RepresentationSafety.Live, DeterministicCarrier.Valid, Moved, KeepsSlots, Remembers, Suffices, Ample, Moves,
         Representation.Verify, ValidateOpaque, Opens;
    ghost var cached := ProtocolSpec.CachedNegotiation(receiver.protocol.state, peer, now);
    if GenerousContact(sender, receiver, plan, peer, now) || GoodContact(sender, receiver, plan, peer, now) {
      ContactOpens(sender, receiver, plan, peer, now);
    }
    r, a := Introduce(sender, receiver, carrier, peer, now, account);
    if old(GenerousContact(sender, receiver, plan, peer, now)) {
      SufficientIsAmple(sender, receiver, carrier, plan.carrier.byteBudget, cached, r.value.value);
    }
    if old(GoodContact(sender, receiver, plan, peer, now)) {
      AdmissibleMoves(sender, receiver, carrier, cached, r.value.value, plan.replays);
    }
  }

  /** The same, and a contact that starts clear is still clear behind negotiation and offer. */
  method Begin(sender: Sender, receiver: Receiver, carrier: DeterministicCarrier, plan: ContactPlan, peer: Octets32, now: u64, account: Accounting)
    returns (r: Result<Option<Negotiation.Profile>, ContactError>, a: Accounting)
    requires receiver.Valid() && receiver.protocol.Valid() && carrier.Valid() && Booked(account, carrier.events)
    requires carrier.config == plan.carrier && carrier.spent == 0 && (carrier.disconnected <==> plan.carrier.disconnectAfterMs == Some(0))
    modifies carrier, sender`state, receiver.protocol, receiver.protocol.slots, receiver.representation, receiver.representation.disk
    ensures carrier.Valid() && (sender.state == old(sender.state) || sender.state == Offered)
    ensures Survives(receiver.representation.sha, old(receiver.representation.state.descriptor), receiver.representation.disk, receiver.whole)
    ensures receiver.representation.state.sequence <= old(receiver.representation.state.sequence) + 1
    ensures KeepsSlots(receiver.protocol, sender.representation.descriptor, plan.carrier, peer)
    ensures r.Ok? ==> Remembers(receiver.protocol, sender.representation.descriptor, plan.carrier, peer, now)
    ensures r.Ok? ==>
              && Booked(a, carrier.events) && SamePayload(account, a) && receiver.Valid()
              && Moved(old(receiver.DurableState()), account.Stored(), receiver.DurableState(), a.Stored(), 0)
              && receiver.DurableState() == old(receiver.DurableState()).(accepted := old(receiver.DurableState()).accepted || r.value.Some?)
    ensures var cached := ProtocolSpec.CachedNegotiation(old(receiver.protocol.state), peer, now);
            cached.Some? && old(receiver.Snapshot().accepted) ==> r == Ok(cached)
    ensures var cached := ProtocolSpec.CachedNegotiation(old(receiver.protocol.state), peer, now);
            cached.Some? && old(ClearContact(sender, receiver, plan, cached.value)) ==>
              && r == Ok(cached) && receiver.DurableState() == old(receiver.DurableState())
              && Clear(sender, receiver, carrier, cached.value, plan.mutation, plan.replays)
              && NextLimit(receiver, carrier, cached.value) == old(FirstLimit(receiver, plan, cached.value))
              && carrier.Remaining() == plan.carrier.byteBudget
    ensures old(GenerousContact(sender, receiver, plan, peer, now)) ==>
              r.Ok? && r.value.Some? && Ample(sender, receiver, carrier, r.value.value) && plan.mutation == Exact && plan.replays == 0
    ensures old(GoodContact(sender, receiver, plan, peer, now)) ==>
              && r.Ok? && r.value.Some? && Moves(sender, receiver, carrier, r.value.value, plan.replays) && plan.mutation == Exact
              && plan.carrier.byteBudget <= carrier.Remaining() + IntroOctets(sender.representation.descriptor)
              && Left(sender, receiver) == old(Left(sender, receiver))
  {
    hide Booked, Survives, RepresentationSafety.Live, DeterministicCarrier.Valid, Moved, KeepsSlots, Remembers, Ample, Moves,
         Clear, ClearContact, NextLimit, FirstLimit, GenerousContact, GoodContact;
    ghost var cached := ProtocolSpec.CachedNegotiation(receiver.protocol.state, peer, now);
    if cached.Some? && ClearContact(sender, receiver, plan, cached.value) {
      ClearFromTheStart(sender, receiver, carrier, plan, cached.value);
    }
    r, a := Reach(sender, receiver, carrier, plan, peer, now, account);
  }

  /** Everything a contact says once its carrier is up. */
  method Converse(sender: Sender, receiver: Receiver, carrier: DeterministicCarrier, plan: ContactPlan, peer: Octets32, now: u64,
                  account: Accounting)
    returns (r: Outcome<ContactError>, a: Accounting, ghost x: Exchange, ghost limit: nat)
    requires receiver.Valid() && receiver.protocol.Valid() && sender.representation.descriptor == receiver.representation.state.descriptor
    requires |sender.representation.bytes| == sender.representation.descriptor.encodedLength && Faithful(sender, receiver, plan.mutation)
    requires carrier.Valid() && Booked(account, carrier.events) && account.payloadSubmitted == 0 && account.payloadDelivered == 0
    requires carrier.config == plan.carrier && carrier.spent == 0 && (carrier.disconnected <==> plan.carrier.disconnectAfterMs == Some(0))
    modifies carrier, sender`state, receiver.protocol, receiver.protocol.slots, receiver.representation, receiver.representation.disk
    ensures carrier.Valid()
    ensures Survives(receiver.representation.sha, old(receiver.representation.state.descriptor), receiver.representation.disk, receiver.whole)
    ensures receiver.representation.state.sequence <= old(receiver.representation.state.sequence) + 7 + plan.replays
    ensures KeepsSlots(receiver.protocol, sender.representation.descriptor, plan.carrier, peer)
    ensures r.Pass? ==> Remembers(receiver.protocol, sender.representation.descriptor, plan.carrier, peer, now)
    ensures r.Pass? && old(InPhase(sender, receiver)) ==> InPhase(sender, receiver)
    ensures r.Pass? ==>
              && Booked(a, carrier.events) && receiver.Valid() && receiver.DurableState().descriptor == old(receiver.DurableState()).descriptor
              && Moved(old(receiver.DurableState()), account.Stored(), receiver.DurableState(), a.Stored(), x.accepted)
              && x.copies <= 1 + plan.replays && a.payloadSubmitted == Repeated(x.copies, limit) && a.payloadDelivered == x.delivered
    ensures Fares(sender, receiver, plan, peer, now, r.Pass?, x, limit)
  {
    hide Booked, Survives, RepresentationSafety.Live, DeterministicCarrier.Valid, Moved, Grown, Ample, Settled, Receiver.Content,
         KeepsSlots, Remembers,
         Moves, Clear, ClearContact, NextLimit, FirstLimit, GenerousContact, GoodContact, Genuine, Representation.Verify, ValidateOpaque, Fills;
    r, x, limit := Pass, NO_EXCHANGE, 0;
    ghost var before := receiver.DurableState();
    var profile;
    profile, a := Begin(sender, receiver, carrier, plan, peer, now, account);
    if profile.Err? {
      return Fail(profile.error), a, x, limit;
    }
    if profile.value.Some? {
      ghost var t, b := receiver.DurableState(), a.Stored();
      r, a, x, limit := MoveOn(sender, receiver, carrier, profile.value.value, plan.mutation, plan.replays, a);
      if r.Pass? {
        MovedOn(before, account.Stored(), t, b, 0, receiver.DurableState(), a.Stored(), x.accepted);
      }
    }
  }

  /** A contact over a carrier that is new, and its report. */
  method Meet(sender: Sender, receiver: Receiver, carrier: DeterministicCarrier, plan: ContactPlan, peer: Octets32, now: u64,
              blank: Accounting)
    returns (r: Result<ContactReport, ContactError>, ghost x: Exchange, ghost limit: nat)
    requires receiver.Valid() && receiver.protocol.Valid() && sender.representation.descriptor == receiver.representation.state.descriptor
    requires |sender.representation.bytes| == sender.representation.descriptor.encodedLength && Faithful(sender, receiver, plan.mutation)
    requires carrier.Valid() && carrier.config == plan.carrier && carrier.events == [] && carrier.spent == 0
    requires carrier.disconnected <==> plan.carrier.disconnectAfterMs == Some(0)
    requires Booked(blank, carrier.events) && blank.payloadSubmitted == 0 && blank.payloadDelivered == 0 && blank.Stored() == BLANK
    modifies carrier, sender`state, receiver.protocol, receiver.protocol.slots, receiver.representation, receiver.representation.disk
    ensures Survives(receiver.representation.sha, old(receiver.representation.state.descriptor), receiver.representation.disk, receiver.whole)
    ensures receiver.representation.state.sequence <= old(receiver.representation.state.sequence) + 7 + plan.replays
    ensures KeepsSlots(receiver.protocol, sender.representation.descriptor, plan.carrier, peer)
    ensures r.Ok? ==> Remembers(receiver.protocol, sender.representation.descriptor, plan.carrier, peer, now)
    ensures r.Ok? && old(InPhase(sender, receiver)) ==> InPhase(sender, receiver)
    ensures r.Ok? ==>
              && receiver.Valid() && receiver.DurableState().descriptor == old(receiver.DurableState()).descriptor
              && Reported(receiver.representation.sha, plan, old(receiver.DurableState()), receiver.DurableState(), r.value, x, limit)
    ensures Fares(sender, receiver, plan, peer, now, r.Ok?, x, limit)
    ensures r.Ok? ==> r.value.sender == sender.state
  {
    hide Booked, Survives, RepresentationSafety.Live, Moved, Grown, Representation.Verify, ValidateOpaque, Receiver.Content, Reported, Faithful,
         InPhase, KeepsSlots, Remembers, Fares, DeterministicCarrier.Valid;
    x, limit := NO_EXCHANGE, 0;
    receiver.ContentIsPrefix();
    var prefixBefore := receiver.Snapshot().prefix;
    ghost var before := receiver.DurableState();
    var done, account;
    done, account, x, limit := Converse(sender, receiver, carrier, plan, peer, now, blank);
    if done.Fail? {
      return Err(done.error), x, limit;
    }
    var report := Report(sender, receiver, carrier, plan, prefixBefore, account, before, x, limit);
    r := Ok(report);
  }

  /**
   One contact, whatever is lost, truncated, corrupted or replayed. `Reported` says what its report means, `Survives` and `KeepsSlots` what a
   crash would find, `Remembers` what stays cached, and `Fares` what it achieves where the opportunity is good enough.
   */
  method RunContact(sender: Sender, receiver: Receiver, plan: ContactPlan, peer: Octets32, now: u64)
    returns (r: Result<ContactReport, ContactError>, ghost x: Exchange, ghost limit: nat)
    requires receiver.Valid() && receiver.protocol.Valid()
    requires |sender.representation.bytes| == sender.representation.descriptor.encodedLength && Faithful(sender, receiver, plan.mutation)
    modifies sender`state, receiver.protocol, receiver.protocol.slots, receiver.representation, receiver.representation.disk
    ensures Survives(receiver.representation.sha, old(receiver.representation.state.descriptor), receiver.representation.disk, receiver.whole)
    ensures receiver.representation.state.sequence <= old(receiver.representation.state.sequence) + 7 + plan.replays
    ensures KeepsSlots(receiver.protocol, sender.representation.descriptor, plan.carrier, peer)
    ensures r.Ok? ==> Remembers(receiver.protocol, sender.representation.descriptor, plan.carrier, peer, now)
    ensures r.Ok? && old(InPhase(sender, receiver)) ==> InPhase(sender, receiver)
    ensures r.Ok? ==>
              && receiver.Valid() && receiver.DurableState().descriptor == sender.representation.descriptor == old(receiver.DurableState().descriptor)
              && Reported(receiver.representation.sha, plan, old(receiver.DurableState()), receiver.DurableState(), r.value, x, limit)
    ensures Fares(sender, receiver, plan, peer, now, r.Ok?, x, limit)
    ensures r.Ok? ==> r.value.sender == sender.state
    ensures var authorized := plan.source.sourceId == sender.sourceId
                              && plan.source.representationId == sender.representation.descriptor.representationId;
            var same := sender.representation.descriptor == old(receiver.representation.state.descriptor);
            && (!authorized ==> r == Err(UnauthorizedSource))
            && (authorized && !same ==> r == Err(IdentityConflict))
            && (authorized && same && (plan.carrier.bandwidthBps == 0 || plan.carrier.maxRecordBytes == 0) ==> r == Err(InvalidCarrier))
    ensures !sender.Authorizes(plan.source) || sender.representation.descriptor != old(receiver.representation.state.descriptor)
            || !plan.carrier.Valid() ==>
              && unchanged(sender) && unchanged(receiver.protocol) && unchanged(receiver.protocol.slots)
              && unchanged(receiver.representation) && unchanged(receiver.representation.disk)
  {
    hide Booked, RepresentationSafety.Live, Grown, Representation.Verify, ValidateOpaque, Receiver.Content, Reported, Suffices, FirstLimit, Settled,
         FitSlots, Negotiated;
    x, limit := NO_EXCHANGE, 0;
    if !sender.Authorizes(plan.source) {
      return Err(UnauthorizedSource), x, limit;
    }
    if sender.representation.descriptor != receiver.Snapshot().descriptor {
      return Err(IdentityConflict), x, limit;
    }
    if !plan.carrier.Valid() {
      return Err(InvalidCarrier), x, limit;
    }
    var carrier := new DeterministicCarrier(plan.carrier);
    var account := OpenBooks(carrier.events);
    r, x, limit := Meet(sender, receiver, carrier, plan, peer, now, account);
  }
}
