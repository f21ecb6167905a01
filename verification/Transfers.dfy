/** Whole transfers: contacts in turn over one durable root, with endpoint restarts, until a receipt is retained. */
module Transfers {
  import opened Wrappers
  import opened Octets
  import opened Representation
  import opened Carriers
  import opened B1Maxima
  import opened Accounts
  import opened Submission
  import opened Endpoints
  import opened ContactPhases
  import opened Contacts
  import ProtocolSafety
  import ProtocolSpec
  import ProtocolStores
  import RepresentationStores
  import Spec = RepresentationSpec

  datatype TransferReport = TransferReport(
    contacts: seq<ContactReport>,
    account: Accounting,
    carrier: CarrierMetrics,
    reconstructed: Bytes,
    restarts: Restarts)

  /** Senders recreated, receivers reopened, and receivers begun anew over discarded state. */
  datatype Restarts = Restarts(sender: nat, receiver: nat, full: nat)

  const PEER_PROFILE_ID: Octets32 :=
    [0x50, 0x50, 0x50, 0x50, 0x50, 0x50, 0x50, 0x50, 0x50, 0x50, 0x50, 0x50, 0x50, 0x50, 0x50, 0x50,
     0x50, 0x50, 0x50, 0x50, 0x50, 0x50, 0x50, 0x50, 0x50, 0x50, 0x50, 0x50, 0x50, 0x50, 0x50, 0x50]

  /** The two durable stores of a receiver. */
  class Root {
    const slots: ProtocolStores.Slots
    const disk: RepresentationStores.Disk

    constructor ()
      ensures fresh(slots) && fresh(disk) && disk.Now() == Spec.EMPTY_DISK && disk.exposed == []
      ensures slots.Now() == ProtocolSpec.EMPTY_DISK && slots.exposed == [] && slots.Survives()
    {
      slots := new ProtocolStores.Slots();
      disk := new RepresentationStores.Disk();
    }
  }

  /** An empty root is a safe place to start. */
  lemma EmptyRootSurvives(sha: Hash, d: Descriptor, disk: RepresentationStores.Disk, whole: Option<Bytes>)
    requires d.Valid() && disk.Now() == Spec.EMPTY_DISK && disk.exposed == []
    ensures Survives(sha, d, disk, whole)
    ensures HeldOn(d, disk.Now()) == Held(d, false, [], false, {})
  {
  }

  function MergeMetrics(a: CarrierMetrics, b: CarrierMetrics): CarrierMetrics {
    CarrierMetrics(a.submittedBytes + b.submittedBytes, a.submittedRecords + b.submittedRecords, a.deliveredRecords + b.deliveredRecords,
                   a.lostRecords + b.lostRecords, a.lostBytes + b.lostBytes, a.carrierBytes + b.carrierBytes, a.elapsedMs + b.elapsedMs)
  }

  // ---- What the reports of a run add up to ----

  /** All octet budgets of these contacts together. */
  function Budgets(contacts: seq<ContactReport>): nat {
    if contacts == [] then 0 else Budgets(contacts[..|contacts| - 1]) + contacts[|contacts| - 1].plan.carrier.byteBudget
  }

  /** One column of the books or of the carrier's metrics. */
  datatype Column =
    | Sent | Returned | SentCharged | ReturnedCharged | Submitted | Arrived | Duplicate | Useful | Predicted | QuoteErrors | SizeChecks
    | DecodeFailures | IntegrityFailures | OperationOctets(kind: Kind)
    | CarriedOctets | CarriedRecords | DeliveredRecords | LostRecords | LostOctets | CarrierOctets | Elapsed

  function Cell(a: Accounting, m: CarrierMetrics, column: Column): int {
    match column
    case Sent => a.senderToReceiver
    case Returned => a.receiverToSender
    case SentCharged => a.carrierSenderToReceiver
    case ReturnedCharged => a.carrierReceiverToSender
    case Submitted => a.payloadSubmitted
    case Arrived => a.payloadDelivered
    case Duplicate => a.payloadDuplicate
    case Useful => a.usefulCommitted
    case Predicted => a.predicted
    case QuoteErrors => a.quoteError
    case SizeChecks => a.sizeChecks
    case DecodeFailures => a.decodeFailures
    case IntegrityFailures => a.integrityFailures
    case OperationOctets(kind) => Of(a.operations, kind)
    case CarriedOctets => m.submittedBytes
    case CarriedRecords => m.submittedRecords
    case DeliveredRecords => m.deliveredRecords
    case LostRecords => m.lostRecords
    case LostOctets => m.lostBytes
    case CarrierOctets => m.carrierBytes
    case Elapsed => m.elapsedMs
  }

  /** One column over all contacts. */
  function SumOf(contacts: seq<ContactReport>, column: Column): int {
    if contacts == [] then 0
    else SumOf(contacts[..|contacts| - 1], column) + Cell(contacts[|contacts| - 1].account, contacts[|contacts| - 1].carrier, column)
  }

  lemma MergingAdds(a: Accounting, m: CarrierMetrics, b: Accounting, n: CarrierMetrics, column: Column)
    ensures Cell(Merge(a, b), MergeMetrics(m, n), column) == Cell(a, m, column) + Cell(b, n, column)
  {
  }

  /** The first contact with a body is number `i`, and its octets stand behind those of the contacts before it. */
  ghost predicate BodyAt(contacts: seq<ContactReport>, i: nat, body: FirstBody) {
    && i < |contacts| && contacts[i].account.firstBody.Some?
    && (forall j | 0 <= j < i :: contacts[j].account.firstBody.None?)
    && var f, earlier := contacts[i].account.firstBody.value, contacts[..i];
       var octets, charged := SumOf(earlier, Sent) + SumOf(earlier, Returned), SumOf(earlier, SentCharged) + SumOf(earlier, ReturnedCharged);
       && body.bempicBefore == octets + f.bempicBefore && body.bempicThrough == octets + f.bempicThrough
       && body.carrierBefore == charged + f.carrierBefore && body.carrierThrough == charged + f.carrierThrough
       && body.payload == f.payload
  }

  /** The aggregates are the column sums of the contacts, and the first body is the first contact's that has one. */
  ghost predicate Summed(a: Accounting, m: CarrierMetrics, contacts: seq<ContactReport>) {
    && (forall column :: Cell(a, m, column) == SumOf(contacts, column))
    && (a.firstBody.None? <==> forall c | c in contacts :: c.account.firstBody.None?)
    && (a.firstBody.Some? ==> exists i: nat :: BodyAt(contacts, i, a.firstBody.value))
  }

  lemma SumWithOneMore(contacts: seq<ContactReport>, report: ContactReport, column: Column)
    ensures SumOf(contacts + [report], column) == SumOf(contacts, column) + Cell(report.account, report.carrier, column)
  {
    assert (contacts + [report])[..|contacts|] == contacts;
  }

  lemma BodyStays(contacts: seq<ContactReport>, report: ContactReport, i: nat, body: FirstBody)
    requires BodyAt(contacts, i, body)
    ensures BodyAt(contacts + [report], i, body)
  {
    assert (contacts + [report])[..i] == contacts[..i];
  }

  lemma BodyComes(a: Accounting, m: CarrierMetrics, contacts: seq<ContactReport>, report: ContactReport)
    requires Summed(a, m, contacts) && a.firstBody.None? && report.account.firstBody.Some?
    ensures BodyAt(contacts + [report], |contacts|, Merge(a, report.account).firstBody.value)
  {
    hide SumOf;
    assert (contacts + [report])[..|contacts|] == contacts;
    assert Cell(a, m, Sent) == SumOf(contacts, Sent) && Cell(a, m, Returned) == SumOf(contacts, Returned);
    assert Cell(a, m, SentCharged) == SumOf(contacts, SentCharged) && Cell(a, m, ReturnedCharged) == SumOf(contacts, ReturnedCharged);
    forall j | 0 <= j < |contacts|
      ensures (contacts + [report])[j].account.firstBody.None?
    {
      assert contacts[j] in contacts;
    }
  }

  lemma SummedWithOneMore(a: Accounting, m: CarrierMetrics, contacts: seq<ContactReport>, report: ContactReport)
    requires Summed(a, m, contacts)
    ensures Summed(Merge(a, report.account), MergeMetrics(m, report.carrier), contacts + [report])
  {
    hide Cell, SumOf, MergeMetrics, BodyAt;
    forall column
      ensures Cell(Merge(a, report.account), MergeMetrics(m, report.carrier), column) == SumOf(contacts + [report], column)
    {
      MergingAdds(a, m, report.account, report.carrier, column);
      SumWithOneMore(contacts, report, column);
    }
    if a.firstBody.Some? {
      var i: nat :| BodyAt(contacts, i, a.firstBody.value);
      BodyStays(contacts, report, i, a.firstBody.value);
      assert exists c | c in contacts + [report] :: c.account.firstBody.Some? by {
        var c :| c in contacts && c.account.firstBody.Some?;
        assert c in contacts + [report];
      }
    } else if report.account.firstBody.Some? {
      BodyComes(a, m, contacts, report);
      assert report in contacts + [report];
    }
  }

  /** No contact overspends, and a retained receipt means committed octets. */
  ghost predicate Honored(contacts: seq<ContactReport>) {
    forall c | c in contacts ::
      && c.account.Total() == c.carrier.submittedBytes <= c.plan.carrier.byteBudget
      && (c.receiptCommitted ==> c.committed)
  }

  /** The aggregates are the sums of the contacts', the books agree with the carrier's metrics, and both stay within the budgets. */
  ghost predicate Balanced(a: Accounting, carrier: CarrierMetrics, contacts: seq<ContactReport>) {
    && a.Total() == OperationTotal(a.operations) == a.predicted == carrier.submittedBytes <= Budgets(contacts)
    && a.quoteError == 0
    && a.CarrierTotal() == carrier.carrierBytes
    && a.payloadDelivered <= a.payloadSubmitted <= a.Total()
    && Summed(a, carrier, contacts)
  }

  /** From what was first held to what is held now, without an integrity failure: every delivered octet is durable or a duplicate. */
  ghost predicate Gathered(first: Held, now: Held, a: Accounting) {
    a.integrityFailures == 0 ==>
      && first.content <= now.content
      && a.payloadDelivered == |now.content| - |first.content| + a.payloadDuplicate
      && a.usefulCommitted == if now.committed && !first.committed then |now.content| else 0
  }

  lemma BalancedWithOneMore(sha: Hash, a: Accounting, carrier: CarrierMetrics, contacts: seq<ContactReport>, plan: ContactPlan,
                            before: Held, after: Held, report: ContactReport, x: Exchange, limit: nat)
    requires Balanced(a, carrier, contacts) && Honored(contacts) && Reported(sha, plan, before, after, report, x, limit)
    ensures Balanced(Merge(a, report.account), MergeMetrics(carrier, report.carrier), contacts + [report])
    ensures Honored(contacts + [report])
  {
    hide Summed;
    assert (contacts + [report])[..|contacts|] == contacts;
    SummedWithOneMore(a, carrier, contacts, report);
  }

  lemma GatheredWithOneMore(sha: Hash, a: Accounting, first: Held, before: Held, after: Held, plan: ContactPlan, report: ContactReport,
                            x: Exchange, limit: nat)
    requires Gathered(first, before, a) && Reported(sha, plan, before, after, report, x, limit)
    requires first.committed ==> before.committed
    ensures Gathered(first, after, Merge(a, report.account))
    ensures first.committed ==> after.committed
  {
  }

  // ---- Endpoints between contacts ----

  /** A usable receiver for this representation. */
  ghost predicate Usable(sha: Hash, d: Descriptor, whole: Option<Bytes>, receiver: Receiver)
    reads receiver.protocol, receiver.protocol.slots, receiver.representation, receiver.representation.disk
  {
    && receiver.Valid() && receiver.protocol.Valid()
    && receiver.representation.sha == sha && receiver.representation.state.descriptor == d && receiver.whole == whole
  }

  /** The receiver is open on the persistent root. */
  ghost predicate OnRoot(receiver: Receiver, root: Root) {
    receiver.representation.disk == root.disk && receiver.protocol.slots == root.slots
  }

  ghost predicate Apart(receiver: Receiver, root: Root) {
    receiver.representation.disk != root.disk && receiver.protocol.slots != root.slots
  }

  /** The receiver is the given one, or was opened meanwhile, on the root or apart from it. */
  twostate predicate SameOrOpened(receiver: Receiver, new next: Receiver, root: Root) {
    || next == receiver
    || (&& fresh(next.representation) && fresh(next.protocol)
        && (OnRoot(next, root) || (fresh(next.representation.disk) && fresh(next.protocol.slots))))
  }

  /** Reopening a usable receiver finds it as it was, and succeeds short of 2^64 saves. */
  method Reopen(sha: Hash, root: Root, d: Descriptor, ghost whole: Option<Bytes>, receiver: Receiver) returns (r: Result<Receiver, ContactError>)
    requires d.Valid() && Usable(sha, d, whole, receiver) && Survives(sha, d, root.disk, whole) && root.slots.Survives()
    modifies root.disk
    ensures Survives(sha, d, root.disk, whole)
    ensures r.Ok? ==>
              && Usable(sha, d, whole, r.value) && fresh(r.value) && fresh(r.value.representation) && fresh(r.value.protocol) && OnRoot(r.value, root)
              && r.value.protocol.state == r.value.protocol.Durable()
    ensures r.Ok? && OnRoot(receiver, root) ==>
              && r.value.DurableState() == old(receiver.DurableState())
              && r.value.representation.state.sequence <= old(receiver.representation.state.sequence) + 1
              && r.value.protocol.state.sequence == receiver.protocol.state.sequence && r.value.protocol.state.cache == receiver.protocol.state.cache
    ensures OnRoot(receiver, root) && old(receiver.SavesLeft(1)) ==> r.Ok?
  {
    receiver.HeldOnDisk();
    r := Receiver.Open(sha, root.slots, root.disk, d, whole);
  }

  /** The receiver of the next contact: the same, one reopened from the root, or one over a new and empty root. */
  method NextReceiver(sha: Hash, root: Root, d: Descriptor, ghost whole: Option<Bytes>, plan: ContactPlan, number: nat, receiver: Receiver)
    returns (r: Result<Receiver, ContactError>)
    requires d.Valid() && Usable(sha, d, whole, receiver) && Survives(sha, d, root.disk, whole) && root.slots.Survives()
    requires OnRoot(receiver, root) || Apart(receiver, root)
    modifies root.disk
    ensures Survives(sha, d, root.disk, whole)
    ensures r.Ok? ==> Usable(sha, d, whole, r.value) && SameOrOpened(receiver, r.value, root)
    ensures r.Ok? && plan.discard ==>
              && fresh(r.value.representation.disk) && fresh(r.value.protocol.slots)
              && r.value.DurableState() == Held(d, false, [], false, {}) && r.value.protocol.state == ProtocolSpec.INITIAL
    ensures r.Ok? && !plan.discard && OnRoot(receiver, root) ==> OnRoot(r.value, root) && r.value.DurableState() == old(receiver.DurableState())
    ensures number == 0 && !plan.discard ==> r == Ok(receiver) && unchanged(root.disk)
    ensures r.Ok? && !plan.discard && number > 0 ==>
              if plan.restart == ReceiverOnly || plan.restart == Both then
                fresh(r.value) && OnRoot(r.value, root) && r.value.protocol.state == r.value.protocol.Durable()
              else
                r.value == receiver
    ensures !plan.discard && OnRoot(receiver, root) && old(receiver.SavesLeft(1)) ==>
              && r.Ok? && r.value.representation.state.sequence <= old(receiver.representation.state.sequence) + 1
              && r.value.protocol.state.sequence == receiver.protocol.state.sequence && r.value.protocol.state.cache == receiver.protocol.state.cache
  {
    hide Survives;
    if plan.discard {
      var empty := new Root();
      EmptyRootSurvives(sha, d, empty.disk, whole);
      r := Receiver.Open(sha, empty.slots, empty.disk, d, whole);
    } else if number > 0 && (plan.restart == ReceiverOnly || plan.restart == Both) {
      r := Reopen(sha, root, d, whole, receiver);
    } else {
      r := Ok(receiver);
    }
  }

  // ---- Staying on track ----

  /** Saves of the representation store one contact may take, reopening and replays included. */
  const CONTACT_SAVES := 263

  /** A plan whose contact gets the transfer further: authorized, keeping state, without mutation, over an admissible carrier. */
  predicate GoodPlan(d: Descriptor, plan: ContactPlan) {
    plan.source.representationId == d.representationId && !plan.discard && plan.mutation == Exact && Admissible(d, plan.carrier)
  }

  predicate GoodPlans(d: Descriptor, plans: seq<ContactPlan>) {
    forall plan | plan in plans :: GoodPlan(d, plan)
  }

  /** Both ends as a good plan needs them, short of exhaustion by so many contacts, into the first of which `saved` saves already went. */
  ghost predicate OnTrack(sender: Sender, receiver: Receiver, contacts: nat, saved: nat)
    reads sender`state, receiver.protocol, receiver.representation, receiver.representation.disk
  {
    && Genuine(sender, receiver) && FitCache(sender.representation.descriptor, PEER_PROFILE_ID, receiver.protocol.state)
    && InPhase(sender, receiver) && (receiver.Snapshot().accepted || sender.state == Available)
    && receiver.representation.state.sequence + CONTACT_SAVES * contacts <= U64_MAX + saved
    && receiver.protocol.state.sequence + contacts <= U64_MAX
  }

  lemma OnTrackIsGood(sender: Sender, receiver: Receiver, plan: ContactPlan, number: u64, contacts: nat)
    requires OnTrack(sender, receiver, contacts, 1) && 0 < contacts && GoodPlan(sender.representation.descriptor, plan)
    requires sender.sourceId == plan.source.sourceId
    ensures GoodContact(sender, receiver, plan, PEER_PROFILE_ID, number)
  {
  }

  /** The sender of the next contact: the same under the plan's source, or one recreated from the prepared octets; either stays on track. */
  method NextSender(representation: Prepared, plan: ContactPlan, number: nat, sender: Sender, ghost receiver: Receiver, ghost contacts: nat)
    returns (next: Sender, recreated: nat)
    requires sender.representation == representation
    modifies sender`sourceId
    ensures next.representation == representation && next.sourceId == plan.source.sourceId
    ensures if number > 0 && (plan.restart == SenderOnly || plan.restart == Both)
            then fresh(next) && next.state == Available && recreated == 1
            else next == sender && recreated == 0
    ensures old(OnTrack(sender, receiver, contacts, 0)) ==> OnTrack(next, receiver, contacts, 0)
  {
    if number > 0 && (plan.restart == SenderOnly || plan.restart == Both) {
      next := new Sender(representation, plan.source.sourceId);
      recreated := 1;
    } else {
      next, recreated := sender, 0;
      next.sourceId := plan.source.sourceId;
    }
  }

  /**
   From this receiver, by plans that are all good, the run comes to its end: short of exhaustion by one contact more
   than octets are missing.
   */
  ghost predicate ComesToEnd(representation: Prepared, receiver: Receiver, plans: seq<ContactPlan>)
    reads receiver.protocol, receiver.representation, receiver.representation.disk
  {
    var d, contacts := representation.descriptor, |representation.bytes| - |receiver.Content()| + 1;
    && receiver.representation.state.descriptor == d && receiver.Content() <= representation.bytes
    && Verify(receiver.representation.sha, d, representation.bytes) && ValidateOpaque(representation.bytes, d)
    && FitCache(d, PEER_PROFILE_ID, receiver.protocol.state) && GoodPlans(d, plans)
    && receiver.representation.state.sequence + CONTACT_SAVES * contacts <= U64_MAX && receiver.protocol.state.sequence + contacts <= U64_MAX
  }

  lemma ComesToEndMeans(sender: Sender, receiver: Receiver, plans: seq<ContactPlan>)
    requires ComesToEnd(sender.representation, receiver, plans) && sender.state == Available
    ensures 0 <= Lacking(sender.representation, receiver) && OnTrack(sender, receiver, Lacking(sender.representation, receiver) + 1, 0)
    ensures GoodPlans(sender.representation.descriptor, plans)
  {
  }

  lemma OnTrackLeft(sender: Sender, receiver: Receiver, contacts: nat)
    requires OnTrack(sender, receiver, contacts, 0)
    ensures Left(sender, receiver) >= 0
    ensures receiver.Valid() && receiver.DurableState().committed ==> receiver.Content() == sender.representation.bytes
  {
    if receiver.Valid() && receiver.DurableState().committed {
      CommittedIsWhole(sender, receiver);
    }
  }

  /** Genuine octets that are committed are all of the sender's. */
  lemma CommittedIsWhole(sender: Sender, receiver: Receiver)
    requires receiver.Valid() && Genuine(sender, receiver) && receiver.Snapshot().committed
    ensures receiver.Content() == sender.representation.bytes
  {
    receiver.ContentIsPrefix();
  }

  /** A contact of the run: what it keeps, and that on track it gets further and stays on track. */
  method KeepOnTrack(sender: Sender, receiver: Receiver, plan: ContactPlan, number: u64, ghost contacts: nat)
    returns (r: Result<ContactReport, ContactError>, ghost x: Exchange, ghost limit: nat)
    requires receiver.Valid() && receiver.protocol.Valid() && contacts > 0 && sender.sourceId == plan.source.sourceId
    requires |sender.representation.bytes| == sender.representation.descriptor.encodedLength && Faithful(sender, receiver, plan.mutation)
    modifies sender`state, receiver.protocol, receiver.protocol.slots, receiver.representation, receiver.representation.disk
    ensures Survives(receiver.representation.sha, old(receiver.representation.state.descriptor), receiver.representation.disk, receiver.whole)
    ensures KeepsSlots(receiver.protocol, sender.representation.descriptor, plan.carrier, PEER_PROFILE_ID)
    ensures r.Ok? ==>
              && receiver.Valid() && receiver.protocol.Valid()
              && receiver.DurableState().descriptor == sender.representation.descriptor == old(receiver.DurableState().descriptor)
              && Reported(receiver.representation.sha, plan, old(receiver.DurableState()), receiver.DurableState(), r.value, x, limit)
    ensures old(GenerousContact(sender, receiver, plan, PEER_PROFILE_ID, number)) ==>
              r.Ok? && r.value.receiptCommitted && receiver.Content() == sender.representation.bytes
    ensures GoodPlan(sender.representation.descriptor, plan) && old(OnTrack(sender, receiver, contacts, 1)) ==>
              && r.Ok? && Genuine(sender, receiver) && InPhase(sender, receiver) && receiver.Snapshot().accepted
              && FitCache(sender.representation.descriptor, PEER_PROFILE_ID, receiver.protocol.state)
              && receiver.representation.state.sequence < old(receiver.representation.state.sequence) + CONTACT_SAVES
              && receiver.protocol.state.sequence <= old(receiver.protocol.state.sequence) + 1
              && (r.value.receiptCommitted || Left(sender, receiver) < old(Left(sender, receiver)))
  {
    hide Survives, KeepsSlots, Representation.Verify, ValidateOpaque, Receiver.Content, GenerousContact, GoodContact, ClearContact, Grown, Moved,
         ProtocolStores.ProtocolStore.Valid, Fit, Negotiated;
    if GoodPlan(sender.representation.descriptor, plan) && OnTrack(sender, receiver, contacts, 1) {
      OnTrackIsGood(sender, receiver, plan, number, contacts);
    }
    r, x, limit := RunContact(sender, receiver, plan, PEER_PROFILE_ID, number);
    if receiver.protocol.state.cache.Some? {
      NegotiatedIsFit(sender.representation.descriptor, plan.carrier, receiver.protocol.state.cache.value.profile);
    }
  }

  // ---- The run ----

  /** An authorized contact for octets that verify and decode, which discards, mutates and replays nothing. */
  ghost predicate Straight(sha: Hash, representation: Prepared, plan: ContactPlan) {
    && Verify(sha, representation.descriptor, representation.bytes) && ValidateOpaque(representation.bytes, representation.descriptor)
    && plan.source.representationId == representation.descriptor.representationId && !plan.discard
    && plan.carrier.Valid() && plan.mutation == Exact && plan.replays == 0
  }

  /** The first contact of a run has room for all there is to say to this receiver. */
  ghost predicate FirstSuffices(representation: Prepared, receiver: Receiver, plan: ContactPlan)
    reads receiver.protocol, receiver.representation, receiver.representation.disk
  {
    var d := representation.descriptor;
    && receiver.representation.state.descriptor == d && receiver.Content() <= representation.bytes
    && Straight(receiver.representation.sha, representation, plan)
    && Suffices(d, plan.carrier, plan.carrier.byteBudget, ProtocolSpec.CachedNegotiation(receiver.protocol.state, PEER_PROFILE_ID, 0),
                |receiver.Content()|)
    && receiver.SavesLeft(5) && receiver.protocol.state.sequence < U64_MAX
  }

  lemma FirstIsGenerous(sender: Sender, receiver: Receiver, plan: ContactPlan)
    requires FirstSuffices(sender.representation, receiver, plan) && sender.state == Available && sender.sourceId == plan.source.sourceId
    ensures GenerousContact(sender, receiver, plan, PEER_PROFILE_ID, 0)
  {
  }

  /** The plan of a numbered contact: the plans in rotation. */
  function PlanOf(plans: seq<ContactPlan>, number: nat): (plan: ContactPlan)
    requires plans != []
    ensures plan in plans && (number < |plans| ==> plan == plans[number])
  {
    plans[number % |plans|]
  }

  /** The plans come in their order, and after the last the first again. */
  lemma {:induction false} PlansRotate(plans: seq<ContactPlan>, laps: nat, number: nat)
    requires plans != [] && number < |plans|
    ensures PlanOf(plans, Repeated(laps, |plans|) + number) == plans[number]
  {
    if laps > 0 {
      PlansRotate(plans, laps - 1, number);
      LapLater(plans, Repeated(laps - 1, |plans|) + number);
    }
  }

  lemma LapLater(plans: seq<ContactPlan>, number: nat)
    requires plans != []
    ensures PlanOf(plans, number + |plans|) == PlanOf(plans, number)
  {
    var n := |plans|;
    SameRemainder((number + n) / n, (number + n) % n, number / n + 1, number % n, n);
  }

  lemma SameRemainder(p: int, r: nat, q: int, s: nat, n: nat)
    requires r < n && s < n && p * n + r == q * n + s
    ensures r == s
  {
    if p < q {
      assert (q - p) * n == (q - p - 1) * n + n;
      NoLess(q - p - 1, n);
    } else if q < p {
      assert (p - q) * n == (p - q - 1) * n + n;
      NoLess(p - q - 1, n);
    }
  }

  lemma NoLess(a: nat, b: nat)
    ensures a * b >= 0
  {
  }

  /** What the plans of the first `number` contacts restart; the first contact restarts nothing. */
  function RestartsBefore(plans: seq<ContactPlan>, number: nat): (r: Restarts)
    requires plans != []
    ensures number == 0 ==> r == Restarts(0, 0, 0)
  {
    if number <= 1 then
      Restarts(0, 0, 0)
    else
      var plan, earlier := PlanOf(plans, number - 1), RestartsBefore(plans, number - 1);
      Restarts(
        earlier.sender + (if plan.restart == SenderOnly || plan.restart == Both then 1 else 0),
        earlier.receiver + (if !plan.discard && (plan.restart == ReceiverOnly || plan.restart == Both) then 1 else 0),
        earlier.full + if plan.discard then 1 else 0)
  }

  /** The contacts after the first, up to a number, that are of a kind. */
  ghost function After(number: nat, kind: nat -> bool): set<nat> {
    set i: nat | 1 <= i < number && kind(i)
  }

  lemma AfterWithOneMore(number: nat, kind: nat -> bool)
    requires number >= 1
    ensures |After(number + 1, kind)| == |After(number, kind)| + if kind(number) then 1 else 0
  {
    assert After(number + 1, kind) == After(number, kind) + if kind(number) then {number} else {};
  }

  lemma NoneAfter(kind: nat -> bool)
    ensures After(0, kind) == After(1, kind) == {}
  {
  }

  ghost function RecreatesSender(plans: seq<ContactPlan>): nat -> bool
    requires plans != []
  {
    (i: nat) => PlanOf(plans, i).restart in {SenderOnly, Both}
  }

  ghost function ReopensReceiver(plans: seq<ContactPlan>): nat -> bool
    requires plans != []
  {
    (i: nat) => !PlanOf(plans, i).discard && PlanOf(plans, i).restart in {ReceiverOnly, Both}
  }

  ghost function Discards(plans: seq<ContactPlan>): nat -> bool
    requires plans != []
  {
    (i: nat) => PlanOf(plans, i).discard
  }

  /** The restarts are those of the contacts after the first whose plans ask for them. */
  lemma {:induction false} RestartsCount(plans: seq<ContactPlan>, number: nat)
    requires plans != []
    ensures var r := RestartsBefore(plans, number);
            && r.sender == |After(number, RecreatesSender(plans))|
            && r.receiver == |After(number, ReopensReceiver(plans))|
            && r.full == |After(number, Discards(plans))|
  {
    hide After, PlanOf;
    var sender, receiver, full := RecreatesSender(plans), ReopensReceiver(plans), Discards(plans);
    if number <= 1 {
      NoneAfter(sender);
      NoneAfter(receiver);
      NoneAfter(full);
    } else {
      RestartsCount(plans, number - 1);
      AfterWithOneMore(number - 1, sender);
      AfterWithOneMore(number - 1, receiver);
      AfterWithOneMore(number - 1, full);
    }
  }

  lemma OneMoreRestarted(plans: seq<ContactPlan>, number: nat, was: Restarts, now: Restarts)
    requires plans != [] && was == RestartsBefore(plans, number)
    requires var plan := PlanOf(plans, number);
             && now.sender == was.sender + (if number > 0 && (plan.restart == SenderOnly || plan.restart == Both) then 1 else 0)
             && now.full == was.full + (if number > 0 && plan.discard then 1 else 0)
             && now.receiver == was.receiver + if number > 0 && !plan.discard && (plan.restart == ReceiverOnly || plan.restart == Both) then 1 else 0
    ensures now == RestartsBefore(plans, number + 1)
  {
  }

  /** The contacts of a run follow its plans in rotation; only the last one may have retained a receipt. */
  ghost predicate Followed(contacts: seq<ContactReport>, plans: seq<ContactPlan>)
    requires plans != []
  {
    && (forall i | 0 <= i < |contacts| :: contacts[i].plan == PlanOf(plans, i))
    && (forall i | 0 <= i < |contacts| - 1 :: !contacts[i].receiptCommitted)
  }

  /** What a finished transfer promises: the exact octets, within every budget, every delivered octet accounted for. */
  ghost predicate Transferred(sha: Hash, representation: Prepared, first: Held, plans: seq<ContactPlan>, t: TransferReport)
    requires plans != []
  {
    && Verify(sha, representation.descriptor, t.reconstructed)
    && (Verify(sha, representation.descriptor, representation.bytes) && NoCollision(sha, representation.bytes) ==>
          t.reconstructed == representation.bytes)
    && t.contacts != [] && t.contacts[|t.contacts| - 1].receiptCommitted && Followed(t.contacts, plans)
    && t.restarts == RestartsBefore(plans, |t.contacts|)
    && Honored(t.contacts) && Balanced(t.account, t.carrier, t.contacts)
    && ((forall c | c in t.contacts :: !c.plan.discard) && t.account.integrityFailures == 0 ==>
          && t.account.payloadDelivered == |t.reconstructed| - |first.content| + t.account.payloadDuplicate
          && t.account.usefulCommitted == if first.committed then 0 else |t.reconstructed|)
  }

  ghost predicate Unreceipted(contacts: seq<ContactReport>) {
    forall c | c in contacts :: !c.receiptCommitted
  }

  ghost predicate Undiscarded(contacts: seq<ContactReport>) {
    forall c | c in contacts :: !c.plan.discard
  }

  /** Without discarding, the receiver stays on the root, nothing committed is lost and every delivered octet is accounted for. */
  ghost predicate Kept(first: Held, receiver: Receiver, root: Root, contacts: seq<ContactReport>, account: Accounting)
    reads receiver.representation, receiver.representation.disk
  {
    Undiscarded(contacts) ==>
      && OnRoot(receiver, root) && Gathered(first, receiver.DurableState(), account)
      && (first.committed ==> receiver.DurableState().committed)
  }

  lemma KeptAtFirst(first: Held, receiver: Receiver, root: Root, contacts: seq<ContactReport>, account: Accounting)
    requires contacts == [] && OnRoot(receiver, root) && first == receiver.DurableState() && Gathered(first, first, account)
    ensures Kept(first, receiver, root, contacts, account)
  {
  }

  lemma KeptWithOneMore(sha: Hash, first: Held, before: Held, next: Receiver, root: Root, contacts: seq<ContactReport>,
                        account: Accounting, plan: ContactPlan,
                        report: ContactReport, x: Exchange, limit: nat)
    requires Reported(sha, plan, before, next.DurableState(), report, x, limit)
    requires Undiscarded(contacts) && !plan.discard ==> OnRoot(next, root) && Gathered(first, before, account) && (first.committed ==> before.committed)
    ensures Kept(first, next, root, contacts + [report], Merge(account, report.account))
    ensures report.plan == plan && (report.receiptCommitted ==> next.DurableState().committed)
  {
    hide Gathered, Merge, Moved;
    if Undiscarded(contacts + [report]) {
      assert forall c | c in contacts :: c in contacts + [report];
      assert report in contacts + [report];
      GatheredWithOneMore(sha, account, first, before, next.DurableState(), plan, report, x, limit);
    }
  }

  /** The receiver of this contact, and the contact. */
  method Encounter(sha: Hash, root: Root, ghost whole: Option<Bytes>, sender: Sender, receiver: Receiver, plan: ContactPlan, number: u64,
                   ghost contacts: nat)
    returns (r: Result<(Receiver, ContactReport), ContactError>, ghost before: Held, ghost x: Exchange, ghost limit: nat)
    requires Usable(sha, sender.representation.descriptor, whole, receiver) && Survives(sha, sender.representation.descriptor, root.disk, whole)
    requires root.slots.Survives() && (OnRoot(receiver, root) || Apart(receiver, root))
    requires sender.representation.descriptor.Valid() && |sender.representation.bytes| == sender.representation.descriptor.encodedLength
    requires Faithful(sender, receiver, plan.mutation) && sender.sourceId == plan.source.sourceId && contacts > 0
    modifies sender`state, root.slots, root.disk, receiver.protocol, receiver.protocol.slots, receiver.representation, receiver.representation.disk
    ensures Survives(sha, sender.representation.descriptor, root.disk, whole) && root.slots.Survives()
    ensures OfferOctets(sender.representation.descriptor) <= plan.carrier.maxRecordBytes
            && old(FitSlots(sender.representation.descriptor, PEER_PROFILE_ID, root.slots)) ==>
              FitSlots(sender.representation.descriptor, PEER_PROFILE_ID, root.slots)
    ensures r.Ok? ==>
              var (next, report) := r.value;
              && Usable(sha, sender.representation.descriptor, whole, next) && SameOrOpened(receiver, next, root)
              && Reported(sha, plan, before, next.DurableState(), report, x, limit)
              && (!plan.discard && OnRoot(receiver, root) ==> OnRoot(next, root) && before == old(receiver.DurableState()))
    ensures number == 0 && !plan.discard && old(GenerousContact(sender, receiver, plan, PEER_PROFILE_ID, number)) ==>
              r.Ok? && r.value.1.receiptCommitted && r.value.0.Content() == sender.representation.bytes
    ensures OnRoot(receiver, root) && GoodPlan(sender.representation.descriptor, plan) && old(OnTrack(sender, receiver, contacts, 0)) ==>
              && r.Ok? && OnRoot(r.value.0, root) && OnTrack(sender, r.value.0, contacts - 1, 0)
              && (r.value.1.receiptCommitted || Left(sender, r.value.0) < old(Left(sender, receiver)))
  {
    hide Survives, RepresentationStores.RepresentationStore.Valid, ProtocolStores.ProtocolStore.Valid, GenerousContact, Receiver.Content, Moved,
         Reported, FitSlots, Representation.Verify, ValidateOpaque;
    before, x, limit := receiver.DurableState(), NO_EXCHANGE, 0;
    var chosen := NextReceiver(sha, root, sender.representation.descriptor, whole, plan, number, receiver);
    if chosen.Err? {
      return Err(chosen.error), before, x, limit;
    }
    var next := chosen.value;
    before := next.DurableState();
    var done;
    done, x, limit := KeepOnTrack(sender, next, plan, number, contacts);
    r := if done.Err? then Err(done.error) else Ok((next, done.value));
  }

  /** One turn of the run: the contact, then the aggregates. */
  method Turn(sha: Hash, root: Root, ghost whole: Option<Bytes>, sender: Sender, receiver: Receiver, plan: ContactPlan, number: u64, ghost left: nat,
              ghost first: Held, ghost contacts: seq<ContactReport>, account: Accounting, carrier: CarrierMetrics)
    returns (r: Result<(Receiver, ContactReport), ContactError>, a: Accounting, m: CarrierMetrics)
    requires Usable(sha, sender.representation.descriptor, whole, receiver) && Survives(sha, sender.representation.descriptor, root.disk, whole)
    requires root.slots.Survives() && (OnRoot(receiver, root) || Apart(receiver, root))
    requires sender.representation.descriptor.Valid() && |sender.representation.bytes| == sender.representation.descriptor.encodedLength
    requires Faithful(sender, receiver, plan.mutation) && sender.sourceId == plan.source.sourceId && left > 0
    requires Balanced(account, carrier, contacts) && Honored(contacts) && Kept(first, receiver, root, contacts, account)
    modifies sender`state, root.slots, root.disk, receiver.protocol, receiver.protocol.slots, receiver.representation, receiver.representation.disk
    ensures Survives(sha, sender.representation.descriptor, root.disk, whole) && root.slots.Survives()
    ensures OfferOctets(sender.representation.descriptor) <= plan.carrier.maxRecordBytes
            && old(FitSlots(sender.representation.descriptor, PEER_PROFILE_ID, root.slots)) ==>
              FitSlots(sender.representation.descriptor, PEER_PROFILE_ID, root.slots)
    ensures r.Ok? ==>
              var (next, report) := r.value;
              && Usable(sha, sender.representation.descriptor, whole, next) && next.whole == whole && SameOrOpened(receiver, next, root)
              && report.plan == plan && (report.receiptCommitted ==> next.DurableState().committed)
              && Balanced(a, m, contacts + [report]) && Honored(contacts + [report]) && Kept(first, next, root, contacts + [report], a)
    ensures number == 0 && !plan.discard && old(GenerousContact(sender, receiver, plan, PEER_PROFILE_ID, number)) ==>
              r.Ok? && r.value.1.receiptCommitted && r.value.0.Content() == sender.representation.bytes
    ensures OnRoot(receiver, root) && GoodPlan(sender.representation.descriptor, plan) && old(OnTrack(sender, receiver, left, 0)) ==>
              && r.Ok? && OnRoot(r.value.0, root) && OnTrack(sender, r.value.0, left - 1, 0)
              && (r.value.1.receiptCommitted || Left(sender, r.value.0) < old(Left(sender, receiver)))
  {
    hide Survives, Balanced, Honored, Gathered, Receiver.Valid, ProtocolStores.ProtocolStore.Valid, GenerousContact, Receiver.Content,
         Moved, FitSlots, OnTrack, GoodPlan, Faithful, Left, Reported, Merge, MergeMetrics;
    a, m := account, carrier;
    var done;
    ghost var before, x, limit;
    done, before, x, limit := Encounter(sha, root, whole, sender, receiver, plan, number, left);
    if done.Err? {
      return Err(done.error), a, m;
    }
    var (next, report) := done.value;
    a, m := Merge(a, report.account), MergeMetrics(m, report.carrier);
    BalancedWithOneMore(sha, account, carrier, contacts, plan, before, next.DurableState(), report, x, limit);
    KeptWithOneMore(sha, first, before, next, root, contacts, account, plan, report, x, limit);
    r := Ok((next, report));
  }

  /** Before the first contact the books are blank and nothing was gathered. */
  lemma NothingGathered(first: Held, a: Accounting, contacts: seq<ContactReport>, events: seq<CarrierEvent>, plans: seq<ContactPlan>)
    requires plans != []
    requires Booked(a, events) && events == [] && a.Stored() == BLANK && a.payloadSubmitted == 0 && contacts == []
    requires a.decodeFailures == 0 && a.firstBody.None?
    ensures Balanced(a, NO_METRICS, contacts) && Honored(contacts) && Gathered(first, first, a) && Followed(contacts, plans) && Unreceipted(contacts)
  {
    BookedTotals(a, events);
    forall column
      ensures Cell(a, NO_METRICS, column) == SumOf(contacts, column)
    {
      assert a.Total() == OperationTotal(a.operations) == 0;
      if column.OperationOctets? {
        match column.kind
        case CapabilitiesKind => case SummaryKind => case OfferKind => case RequestKind => case DataKind => case ReceiptKind => case FailureKind =>
      }
    }
  }

  lemma FollowedWithOneMore(contacts: seq<ContactReport>, plans: seq<ContactPlan>, report: ContactReport)
    requires plans != [] && Followed(contacts, plans) && Unreceipted(contacts)
    requires report.plan == PlanOf(plans, |contacts|)
    ensures Followed(contacts + [report], plans)
    ensures !report.receiptCommitted ==> Unreceipted(contacts + [report])
  {
  }

  // ---- The loop ----

  /** What the loop has gathered so far. */
  datatype Journal = Journal(contacts: seq<ContactReport>, account: Accounting, carrier: CarrierMetrics, restarts: Restarts) {
    /** The last contact left a retained receipt. */
    predicate Done() {
      contacts != [] && contacts[|contacts| - 1].receiptCommitted
    }
  }

  /** A usable receiver, and a journal that follows the plans, balances, and accounts for what the receiver holds. */
  ghost predicate Ran(sha: Hash, root: Root, whole: Option<Bytes>, d: Descriptor, receiver: Receiver, plans: seq<ContactPlan>, first: Held, j: Journal)
    requires plans != []
    reads receiver.protocol, receiver.protocol.slots, receiver.representation, receiver.representation.disk
  {
    && Usable(sha, d, whole, receiver) && receiver.whole == whole
    && Balanced(j.account, j.carrier, j.contacts) && Honored(j.contacts) && Kept(first, receiver, root, j.contacts, j.account)
    && Followed(j.contacts, plans) && j.restarts == RestartsBefore(plans, |j.contacts|)
  }

  /** The octets behind a retained receipt are the transferred representation. */
  method Finish(sha: Hash, ghost root: Root, ghost whole: Option<Bytes>, receiver: Receiver, representation: Prepared, plans: seq<ContactPlan>,
                j: Journal, ghost first: Held)
    returns (r: Result<TransferReport, ContactError>)
    requires plans != [] && Ran(sha, root, whole, representation.descriptor, receiver, plans, first, j) && j.Done()
            && receiver.DurableState().committed
    ensures r.Ok? && Transferred(sha, representation, first, plans, r.value)
    ensures r.value.contacts == j.contacts && r.value.reconstructed == receiver.Content()
  {
    receiver.ContentIsPrefix();
    var bytes := receiver.representation.ReadComplete();
    assert bytes == Ok(receiver.Content());
    if Verify(sha, representation.descriptor, representation.bytes) {
      VerifiedBytesAgree(sha, representation.descriptor, representation.bytes, bytes.value);
    }
    r := Ok(TransferReport(j.contacts, j.account, j.carrier, bytes.value, j.restarts));
  }

  predicate OnlyExact(plans: seq<ContactPlan>) {
    forall plan | plan in plans :: plan.mutation == Exact
  }

  predicate TakeOffer(d: Descriptor, plans: seq<ContactPlan>) {
    forall plan | plan in plans :: OfferOctets(d) <= plan.carrier.maxRecordBytes
  }

  /** Octets of the representation this receiver still lacks. */
  ghost function Lacking(representation: Prepared, receiver: Receiver): int
    reads receiver.representation, receiver.representation.disk
  {
    |representation.bytes| - |receiver.Content()|
  }

  /** One round: the sender of this contact, then its turn. */
  method Round(sha: Hash, root: Root, ghost whole: Option<Bytes>, representation: Prepared, sender: Sender, receiver: Receiver,
               plan: ContactPlan, number: u64,
               ghost left: nat, ghost first: Held, ghost contacts: seq<ContactReport>, account: Accounting, carrier: CarrierMetrics)
    returns (r: Result<(Receiver, ContactReport), ContactError>, next: Sender, recreated: nat, a: Accounting, m: CarrierMetrics)
    requires Usable(sha, representation.descriptor, whole, receiver) && Survives(sha, representation.descriptor, root.disk, whole)
    requires root.slots.Survives() && (OnRoot(receiver, root) || Apart(receiver, root)) && receiver.whole == whole
    requires representation.descriptor.Valid() && |representation.bytes| == representation.descriptor.encodedLength && left > 0
    requires sender.representation == representation && (whole.Some? ==> whole.value == representation.bytes && plan.mutation == Exact)
    requires Balanced(account, carrier, contacts) && Honored(contacts) && Kept(first, receiver, root, contacts, account)
    modifies sender`state, sender`sourceId, root.slots, root.disk, receiver.protocol, receiver.protocol.slots, receiver.representation,
             receiver.representation.disk
    ensures Survives(sha, representation.descriptor, root.disk, whole) && root.slots.Survives()
    ensures OfferOctets(representation.descriptor) <= plan.carrier.maxRecordBytes
            && old(FitSlots(representation.descriptor, PEER_PROFILE_ID, root.slots)) ==>
              FitSlots(representation.descriptor, PEER_PROFILE_ID, root.slots)
    ensures next.representation == representation && (next == sender || fresh(next))
    ensures recreated == if number > 0 && (plan.restart == SenderOnly || plan.restart == Both) then 1 else 0
    ensures r.Ok? ==>
              var (receiver', report) := r.value;
              && Usable(sha, representation.descriptor, whole, receiver') && receiver'.whole == whole && SameOrOpened(receiver, receiver', root)
              && report.plan == plan && (report.receiptCommitted ==> receiver'.DurableState().committed)
              && Balanced(a, m, contacts + [report]) && Honored(contacts + [report]) && Kept(first, receiver', root, contacts + [report], a)
    ensures number == 0 && old(FirstSuffices(representation, receiver, plan)) && old(sender.state) == Available ==>
              r.Ok? && r.value.1.receiptCommitted && r.value.0.Content() == representation.bytes
    ensures OnRoot(receiver, root) && GoodPlan(representation.descriptor, plan) && old(OnTrack(sender, receiver, left, 0)) ==>
              && r.Ok? && OnTrack(next, r.value.0, left - 1, 0) && OnRoot(r.value.0, root) && 0 <= Lacking(representation, r.value.0)
              && (r.value.1.receiptCommitted || Lacking(representation, r.value.0) < old(Lacking(representation, receiver)))
              && (r.value.1.receiptCommitted ==> r.value.0.Content() == representation.bytes)
  {
    hide Survives, Balanced, Honored, Gathered, FitSlots, OnTrack, Kept, Receiver.Valid, ProtocolStores.ProtocolStore.Valid, Receiver.Content,
         Receiver.DurableState, Suffices, GenerousContact;
    next, recreated := NextSender(representation, plan, number, sender, receiver, left);
    if number == 0 && FirstSuffices(representation, receiver, plan) && next.state == Available {
      FirstIsGenerous(next, receiver, plan);
    }
    r, a, m := Turn(sha, root, whole, next, receiver, plan, number, left, first, contacts, account, carrier);
    if OnRoot(receiver, root) && GoodPlan(representation.descriptor, plan) && old(OnTrack(sender, receiver, left, 0)) {
      OnTrackLeft(next, r.value.0, left - 1);
    }
  }

  /** One lap of the loop: the next plan in rotation, its round, and the counters. */
  method Lap(sha: Hash, root: Root, ghost whole: Option<Bytes>, representation: Prepared, sender: Sender, receiver: Receiver, plans: seq<ContactPlan>,
             number: u64, ghost left: nat, ghost first: Held, j: Journal)
    returns (r: Result<Receiver, ContactError>, next: Sender, k: Journal)
    requires plans != [] && Ran(sha, root, whole, representation.descriptor, receiver, plans, first, j)
    requires Survives(sha, representation.descriptor, root.disk, whole) && root.slots.Survives()
    requires |j.contacts| == number && Unreceipted(j.contacts) && (OnRoot(receiver, root) || Apart(receiver, root)) && left > 0
    requires representation.descriptor.Valid() && |representation.bytes| == representation.descriptor.encodedLength
    requires sender.representation == representation && (whole.Some? ==> whole.value == representation.bytes && OnlyExact(plans))
    modifies sender`state, sender`sourceId, root.slots, root.disk, receiver.protocol, receiver.protocol.slots, receiver.representation,
             receiver.representation.disk
    ensures Survives(sha, representation.descriptor, root.disk, whole) && root.slots.Survives()
    ensures TakeOffer(representation.descriptor, plans) && old(FitSlots(representation.descriptor, PEER_PROFILE_ID, root.slots)) ==>
              FitSlots(representation.descriptor, PEER_PROFILE_ID, root.slots)
    ensures next.representation == representation && (next == sender || fresh(next))
    ensures r.Ok? ==>
              && Ran(sha, root, whole, representation.descriptor, r.value, plans, first, k) && SameOrOpened(receiver, r.value, root)
              && |k.contacts| == number + 1 && if k.Done() then r.value.DurableState().committed else Unreceipted(k.contacts)
    ensures number == 0 && old(FirstSuffices(representation, receiver, plans[0])) && old(sender.state) == Available ==>
              r.Ok? && k.Done() && r.value.Content() == representation.bytes
    ensures OnRoot(receiver, root) && GoodPlans(representation.descriptor, plans) && old(OnTrack(sender, receiver, left, 0)) ==>
              && r.Ok? && OnTrack(next, r.value, left - 1, 0) && OnRoot(r.value, root) && 0 <= Lacking(representation, r.value)
              && if k.Done() then r.value.Content() == representation.bytes
                 else Lacking(representation, r.value) < old(Lacking(representation, receiver))
  {
    hide Survives, Balanced, Honored, Usable, Followed, Receiver.Content, Receiver.DurableState, FirstSuffices, PlanOf,
         RestartsBefore, FitSlots, OnTrack,
         GoodPlan, Lacking, Kept, Receiver.Valid;
    var plan := PlanOf(plans, number);
    var round, recreated, account, carrier;
    round, next, recreated, account, carrier :=
      Round(sha, root, whole, representation, sender, receiver, plan, number, left, first, j.contacts, j.account, j.carrier);
    var counted := j.restarts.(sender := j.restarts.sender + recreated);
    if number > 0 && plan.discard {
      counted := counted.(full := counted.full + 1);
    } else if number > 0 && (plan.restart == ReceiverOnly || plan.restart == Both) {
      counted := counted.(receiver := counted.receiver + 1);
    }
    OneMoreRestarted(plans, number, j.restarts, counted);
    if round.Err? {
      return Err(round.error), next, j;
    }
    FollowedWithOneMore(j.contacts, plans, round.value.1);
    r, k := Ok(round.value.0), Journal(j.contacts + [round.value.1], account, carrier, counted);
  }

  /** Before the first lap. */
  method BlankJournal(sha: Hash, ghost root: Root, ghost whole: Option<Bytes>, ghost d: Descriptor, receiver: Receiver, plans: seq<ContactPlan>)
    returns (j: Journal)
    requires plans != [] && Usable(sha, d, whole, receiver) && receiver.whole == whole && OnRoot(receiver, root)
    ensures Ran(sha, root, whole, d, receiver, plans, receiver.DurableState(), j) && j.contacts == [] && Unreceipted(j.contacts)
  {
    hide Usable, Balanced, Honored, Gathered, Followed;
    ghost var events: seq<CarrierEvent> := [];
    var contacts: seq<ContactReport> := [];
    var account := OpenBooks(events);
    NothingGathered(receiver.DurableState(), account, contacts, events, plans);
    KeptAtFirst(receiver.DurableState(), receiver, root, contacts, account);
    j := Journal(contacts, account, NO_METRICS, Restarts(0, 0, 0));
  }

  /** The loop over contacts, from a receiver that was just opened on the root. */
  method Rotate(sha: Hash, root: Root, ghost whole: Option<Bytes>, representation: Prepared, initial: Receiver, plans: seq<ContactPlan>,
                maxContacts: u64)
    returns (r: Result<TransferReport, ContactError>)
    requires plans != [] && representation.descriptor.Valid() && |representation.bytes| == representation.descriptor.encodedLength
    requires Survives(sha, representation.descriptor, root.disk, whole) && root.slots.Survives()
    requires Usable(sha, representation.descriptor, whole, initial) && initial.whole == whole && OnRoot(initial, root)
    requires whole.Some? ==> whole.value == representation.bytes && OnlyExact(plans)
    modifies root.slots, root.disk, initial.protocol, initial.representation
    ensures Survives(sha, representation.descriptor, root.disk, whole) && root.slots.Survives()
    ensures TakeOffer(representation.descriptor, plans) && old(FitSlots(representation.descriptor, PEER_PROFILE_ID, root.slots)) ==>
              FitSlots(representation.descriptor, PEER_PROFILE_ID, root.slots)
    ensures r.Ok? ==> Transferred(sha, representation, old(initial.DurableState()), plans, r.value) && |r.value.contacts| <= maxContacts
    ensures maxContacts == 0 ==> r == Err(ContactLimit(0))
    ensures maxContacts > 0 && old(FirstSuffices(representation, initial, plans[0])) ==>
              r.Ok? && |r.value.contacts| == 1 && r.value.reconstructed == representation.bytes
    ensures var missing := old(Lacking(representation, initial));
            maxContacts > missing && old(ComesToEnd(representation, initial, plans)) ==>
              r.Ok? && |r.value.contacts| <= missing + 1 && r.value.reconstructed == representation.bytes
  {
    hide Survives, Transferred, Receiver.Content, Receiver.DurableState, FirstSuffices, FitSlots, OnTrack, ComesToEnd, GoodPlans,
         TakeOffer, OnlyExact,
         Unreceipted, Receiver.Valid, ProtocolStores.ProtocolStore.Valid, Lacking, ProtocolStores.Slots.Survives, Ran, Usable;
    var d := representation.descriptor;
    var sender := new Sender(representation, plans[0].source.sourceId);
    var receiver := initial;
    ghost var first := receiver.DurableState();
    var j := BlankJournal(sha, root, whole, d, receiver, plans);
    ghost var live, missing := ComesToEnd(representation, receiver, plans), 0;
    if live {
      ComesToEndMeans(sender, receiver, plans);
      missing := Lacking(representation, receiver);
    }
    for number := 0 to maxContacts
      invariant Survives(sha, d, root.disk, whole) && root.slots.Survives()
      invariant TakeOffer(d, plans) && old(FitSlots(d, PEER_PROFILE_ID, root.slots)) ==> FitSlots(d, PEER_PROFILE_ID, root.slots)
      invariant receiver == initial || (fresh(receiver.representation) && fresh(receiver.protocol))
      invariant OnRoot(receiver, root) || (fresh(receiver.representation.disk) && fresh(receiver.protocol.slots))
      invariant fresh(sender) && sender.representation == representation
      invariant Ran(sha, root, whole, d, receiver, plans, first, j) && |j.contacts| == number && Unreceipted(j.contacts)
      invariant old(FirstSuffices(representation, initial, plans[0])) ==>
                  number == 0 && receiver == initial && FirstSuffices(representation, receiver, plans[0]) && sender.state == Available
      invariant live ==>
                  && number <= missing && OnRoot(receiver, root) && OnTrack(sender, receiver, missing + 1 - number, 0)
                  && number + Lacking(representation, receiver) <= missing
    {
      var lap;
      lap, sender, j := Lap(sha, root, whole, representation, sender, receiver, plans, number, if live then missing + 1 - number else 1, first, j);
      if lap.Err? {
        return Err(lap.error);
      }
      receiver := lap.value;
      if j.Done() {
        r := Finish(sha, root, whole, receiver, representation, plans, j, first);
        return;
      }
    }
    r := Err(ContactLimit(maxContacts));
  }

  // ---- Roots ----

  /**
   A root an interrupted transfer may have left: whatever a crash could find there opens with first octets of the representation and nothing
   cached under which its offer would not pass; and the slots themselves are not those of a torn first save.
   */
  ghost predicate Resumable(sha: Hash, root: Root, representation: Prepared)
    reads root.slots, root.disk
  {
    var d := representation.descriptor;
    && Verify(sha, d, representation.bytes) && ValidateOpaque(representation.bytes, d)
    && Survives(sha, d, root.disk, Some(representation.bytes))
    && root.slots.Survives() && FitSlots(d, PEER_PROFILE_ID, root.slots) && root.slots.Now() != ProtocolSafety.TORN_FIRST
  }

  lemma EmptyRootIsResumable(sha: Hash, root: Root, representation: Prepared)
    requires root.disk.Now() == Spec.EMPTY_DISK && root.disk.exposed == []
    requires root.slots.Now() == ProtocolSpec.EMPTY_DISK && root.slots.exposed == []
    requires Verify(sha, representation.descriptor, representation.bytes) && ValidateOpaque(representation.bytes, representation.descriptor)
    ensures Resumable(sha, root, representation)
  {
  }

  /**
   What a crash would find in the root's stores, whenever it comes, is resumable unless it tears the very first save
   of a protocol store.
   */
  ghost predicate CutSafe(sha: Hash, root: Root, representation: Prepared)
    reads root.slots, root.disk
  {
    && Survives(sha, representation.descriptor, root.disk, Some(representation.bytes))
    && root.slots.Survives() && FitSlots(representation.descriptor, PEER_PROFILE_ID, root.slots)
  }

  /**
   Cut at any exposed slot image and any exposed disk image, the root is resumable exactly when its slots open, and
   they do unless the first save was torn.
   */
  lemma CutIsResumable(sha: Hash, root: Root, representation: Prepared, cut: Root, i: nat, j: nat)
    requires Verify(sha, representation.descriptor, representation.bytes) && ValidateOpaque(representation.bytes, representation.descriptor)
    requires CutSafe(sha, root, representation) && i < |root.slots.exposed| && j < |root.disk.exposed|
    requires cut.slots.Now() == root.slots.exposed[i] && cut.slots.exposed == root.slots.exposed[..i]
    requires cut.disk.Now() == root.disk.exposed[j] && cut.disk.exposed == root.disk.exposed[..j]
    ensures Resumable(sha, cut, representation) <==> ProtocolSpec.Open(cut.slots.Now()).Ok?
    ensures ProtocolSpec.Open(cut.slots.Now()).Ok? <==> cut.slots.Now() != ProtocolSafety.TORN_FIRST
  {
    assert ProtocolSafety.SoundSlots(root.slots.exposed[i]);
    ProtocolSafety.OpensUnlessTornFirst(cut.slots.Now());
    assert Sane(sha, representation.descriptor, root.disk.exposed[j], Some(representation.bytes));
    assert FitImage(representation.descriptor, PEER_PROFILE_ID, root.slots.exposed[i]);
  }

  /** Octets the root does not hold yet. */
  ghost function Outstanding(root: Root, representation: Prepared): int
    reads root.disk
  {
    |representation.bytes| - if Spec.Newest(root.disk.Now(), representation.descriptor).Ok?
      then |HeldOn(representation.descriptor, root.disk.Now()).content| else 0
  }

  /** Saves left in both stores of the root for so many contacts, and for opening it. */
  ghost predicate HasSavesFor(root: Root, d: Descriptor, contacts: int)
    reads root.slots, root.disk
  {
    && Spec.Newest(root.disk.Now(), d).Ok? && Spec.Newest(root.disk.Now(), d).value.sequence + 1 + CONTACT_SAVES * contacts <= U64_MAX
    && ProtocolSpec.Open(root.slots.Now()).Ok? && ProtocolSpec.Open(root.slots.Now()).value.sequence + contacts <= U64_MAX
  }

  /** A root as an interrupted run left it, and plans that are all good. */
  ghost predicate Completes(sha: Hash, root: Root, representation: Prepared, plans: seq<ContactPlan>)
    reads root.slots, root.disk
  {
    && Resumable(sha, root, representation) && plans != [] && GoodPlans(representation.descriptor, plans)
    && HasSavesFor(root, representation.descriptor, Outstanding(root, representation) + 1)
  }

  /** A root that opens, with first octets of the representation and a first contact that suffices for the rest. */
  ghost predicate Resumes(sha: Hash, root: Root, representation: Prepared, plan: ContactPlan)
    reads root.slots, root.disk
  {
    var d, protocol := representation.descriptor, ProtocolSpec.Open(root.slots.Now());
    && Survives(sha, d, root.disk, None) && root.slots.Survives() && protocol.Ok?
    && HeldOn(d, root.disk.Now()).content <= representation.bytes
    && Straight(sha, representation, plan)
    && Suffices(d, plan.carrier, plan.carrier.byteBudget, ProtocolSpec.CachedNegotiation(protocol.value, PEER_PROFILE_ID, 0),
                |HeldOn(d, root.disk.Now()).content|)
    && Spec.Newest(root.disk.Now(), d).value.sequence + 6 <= U64_MAX && protocol.value.sequence < U64_MAX
  }

  lemma EmptyRootResumes(sha: Hash, root: Root, representation: Prepared, plan: ContactPlan)
    requires root.disk.Now() == Spec.EMPTY_DISK && root.disk.exposed == []
    requires root.slots.Now() == ProtocolSpec.EMPTY_DISK && root.slots.exposed == []
    requires Straight(sha, representation, plan) && Suffices(representation.descriptor, plan.carrier, plan.carrier.byteBudget, None, 0)
    ensures Resumes(sha, root, representation, plan)
  {
  }

  /** From an empty root good plans complete any representation. */
  lemma EmptyRootCompletes(sha: Hash, root: Root, representation: Prepared, plans: seq<ContactPlan>)
    requires root.disk.Now() == Spec.EMPTY_DISK && root.disk.exposed == []
    requires root.slots.Now() == ProtocolSpec.EMPTY_DISK && root.slots.exposed == []
    requires Verify(sha, representation.descriptor, representation.bytes) && ValidateOpaque(representation.bytes, representation.descriptor)
    requires plans != [] && GoodPlans(representation.descriptor, plans)
    ensures Completes(sha, root, representation, plans) && Outstanding(root, representation) == representation.descriptor.encodedLength
  {
    hide GoodPlan;
    EmptyRootIsResumable(sha, root, representation);
  }

  lemma ResumedSuffices(sha: Hash, representation: Prepared, was: RepresentationStores.Image, receiver: Receiver, plan: ContactPlan)
    requires Straight(sha, representation, plan) && Spec.Newest(was, representation.descriptor).Ok?
    requires receiver.representation.sha == sha && receiver.representation.state.descriptor == representation.descriptor
    requires receiver.DurableState() == HeldOn(representation.descriptor, was)
            && HeldOn(representation.descriptor, was).content <= representation.bytes
    requires Suffices(representation.descriptor, plan.carrier, plan.carrier.byteBudget,
                      ProtocolSpec.CachedNegotiation(receiver.protocol.state, PEER_PROFILE_ID, 0), |HeldOn(representation.descriptor, was).content|)
    requires receiver.SavesLeft(5) && receiver.protocol.state.sequence < U64_MAX
    ensures FirstSuffices(representation, receiver, plan)
  {
  }

  /** The receiver a resumable root opens with comes to the end of the run by good plans. */
  lemma OpenedComesToEnd(sha: Hash, representation: Prepared, was: RepresentationStores.Image, receiver: Receiver, plans: seq<ContactPlan>)
    requires Verify(sha, representation.descriptor, representation.bytes) && ValidateOpaque(representation.bytes, representation.descriptor)
    requires GoodPlans(representation.descriptor, plans) && Spec.Newest(was, representation.descriptor).Ok?
    requires receiver.representation.sha == sha && receiver.representation.state.descriptor == representation.descriptor
    requires receiver.DurableState() == HeldOn(representation.descriptor, was)
            && HeldOn(representation.descriptor, was).content <= representation.bytes
    requires FitCache(representation.descriptor, PEER_PROFILE_ID, receiver.protocol.state)
    requires var contacts := |representation.bytes| - |HeldOn(representation.descriptor, was).content| + 1;
             && receiver.representation.state.sequence + CONTACT_SAVES * contacts <= U64_MAX && receiver.protocol.state.sequence + contacts <= U64_MAX
    ensures ComesToEnd(representation, receiver, plans)
    ensures Lacking(representation, receiver) == |representation.bytes| - |HeldOn(representation.descriptor, was).content|
  {
  }

  /** Opening the root, and what that means for the run ahead. */
  method OpenRoot(sha: Hash, root: Root, ghost whole: Option<Bytes>, representation: Prepared, plans: seq<ContactPlan>)
    returns (r: Result<Receiver, ContactError>)
    requires representation.descriptor.Valid() ==> Survives(sha, representation.descriptor, root.disk, whole)
    requires root.slots.Survives() && plans != []
    modifies root.disk
    ensures representation.descriptor.Valid() ==> Survives(sha, representation.descriptor, root.disk, whole)
    ensures r.Ok? ==>
              && representation.descriptor.Valid() && fresh(r.value.protocol) && fresh(r.value.representation)
              && Usable(sha, representation.descriptor, whole, r.value) && r.value.whole == whole && OnRoot(r.value, root)
              && r.value.DurableState() == old(HeldOn(representation.descriptor, root.disk.Now()))
    ensures old(Resumes(sha, root, representation, plans[0])) ==> r.Ok? && FirstSuffices(representation, r.value, plans[0])
    ensures old(Completes(sha, root, representation, plans)) ==>
              r.Ok? && ComesToEnd(representation, r.value, plans) && Lacking(representation, r.value) == old(Outstanding(root, representation))
  {
    hide Suffices, FirstSuffices, ComesToEnd, ValidateOpaque, GoodPlan, Receiver.Content, Lacking,
         RepresentationStores.RepresentationStore.Valid, ProtocolStores.ProtocolStore.Valid, ProtocolStores.Slots.Survives;
    var d := representation.descriptor;
    ghost var was := root.disk.Now();
    r := Receiver.Open(sha, root.slots, root.disk, d, whole);
    if old(Resumes(sha, root, representation, plans[0])) {
      ResumedSuffices(sha, representation, was, r.value, plans[0]);
    }
    if old(Completes(sha, root, representation, plans)) {
      OpenedComesToEnd(sha, representation, was, r.value, plans);
    }
  }

  /**
   Contacts in rotation until one leaves a retained receipt, or the contact limit is reached.

   Whatever the contacts lose, truncate, corrupt or replay, a finished run returns what `Transferred` says, and at any moment of any run a crash
   would find stores that open, but for a torn first save. Without mutations it would find a resumable root. By good plans a run from a resumable
   root ends, within one contact more than octets are missing, with exactly the sender's octets.
   */
  method RunUntilComplete(sha: Hash, root: Root, representation: Prepared, plans: seq<ContactPlan>, maxContacts: u64)
    returns (r: Result<TransferReport, ContactError>)
    requires representation.descriptor.Valid() ==> Survives(sha, representation.descriptor, root.disk, None)
    requires |representation.bytes| == representation.descriptor.encodedLength && root.slots.Survives()
    modifies root.slots, root.disk
    ensures representation.descriptor.Valid() ==> Survives(sha, representation.descriptor, root.disk, None)
    ensures root.slots.Survives()
    ensures representation.descriptor.Valid() && OnlyExact(plans) && TakeOffer(representation.descriptor, plans)
            && old(CutSafe(sha, root, representation)) ==>
              CutSafe(sha, root, representation)
    ensures r.Ok? ==>
              && plans != [] && representation.descriptor.Valid()
              && Transferred(sha, representation, old(HeldOn(representation.descriptor, root.disk.Now())), plans, r.value)
              && |r.value.contacts| <= maxContacts
    ensures plans == [] ==> r == Err(NoContacts) && unchanged(root.slots) && unchanged(root.disk)
    ensures maxContacts == 0 && old(Completes(sha, root, representation, plans)) ==> r == Err(ContactLimit(0))
    ensures plans != [] && maxContacts > 0 && old(Resumes(sha, root, representation, plans[0])) ==>
              r.Ok? && |r.value.contacts| == 1 && r.value.reconstructed == representation.bytes
    ensures var missing := old(Outstanding(root, representation));
            maxContacts > missing && old(Completes(sha, root, representation, plans)) ==>
              r.Ok? && |r.value.contacts| <= missing + 1 && r.value.reconstructed == representation.bytes
  {
    hide Suffices, FirstSuffices, ComesToEnd, Transferred, ValidateOpaque, Representation.Verify, GoodPlan, Receiver.Content,
         Lacking, Usable, Resumes,
         Survives, HeldOn, Outstanding, FitSlots, ProtocolStores.Slots.Survives;
    if plans == [] {
      return Err(NoContacts);
    }
    var d := representation.descriptor;
    ghost var bounded := OnlyExact(plans) && d.Valid() && Survives(sha, d, root.disk, Some(representation.bytes));
    ghost var whole := if bounded then Some(representation.bytes) else None;
    var receiver := OpenRoot(sha, root, whole, representation, plans);
    if receiver.Ok? {
      r := Rotate(sha, root, whole, representation, receiver.value, plans, maxContacts);
    } else {
      r := Err(receiver.error);
    }
    if d.Valid() {
      SurvivesAnyway(sha, d, root.disk, whole);
    }
  }
}
