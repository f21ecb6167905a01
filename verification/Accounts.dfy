/** Exact protocol accounting of a contact, the hard budget scope of one request, and merging contacts into a run. */
module Accounts {
  import opened Wrappers
  import opened Octets
  import opened Operations
  import opened B1Maxima
  import opened Carriers

  /** Octets around the first delivered body record. */
  datatype FirstBody = FirstBody(bempicBefore: nat, bempicThrough: nat, carrierBefore: nat, carrierThrough: nat, payload: nat)

  datatype Accounting = Accounting(
    senderToReceiver: nat,
    receiverToSender: nat,
    payloadSubmitted: nat,
    payloadDelivered: nat,
    payloadDuplicate: nat,
    usefulCommitted: nat,
    predicted: nat,
    quoteError: int,
    sizeChecks: nat,
    decodeFailures: nat,
    integrityFailures: nat,
    carrierSenderToReceiver: nat,
    carrierReceiverToSender: nat,
    operations: map<Kind, nat>,
    firstBody: Option<FirstBody>)
  {
    function Total(): nat {
      senderToReceiver + receiverToSender
    }

    function CarrierTotal(): nat {
      carrierSenderToReceiver + carrierReceiverToSender
    }

    function Stored(): Ledger {
      Ledger(payloadDelivered, payloadDuplicate, usefulCommitted, integrityFailures)
    }
  }

  /** The books' statement of delivered, repeated, committed and rejected octets. */
  datatype Ledger = Ledger(delivered: nat, duplicate: nat, committed: nat, rejections: nat)

  const BLANK := Ledger(0, 0, 0, 0)

  function Of(operations: map<Kind, nat>, kind: Kind): nat {
    if kind in operations then operations[kind] else 0
  }

  /** All operations together. */
  function OperationTotal(operations: map<Kind, nat>): nat {
    Of(operations, CapabilitiesKind) + Of(operations, SummaryKind) + Of(operations, OfferKind) + Of(operations, RequestKind)
    + Of(operations, DataKind) + Of(operations, ReceiptKind) + Of(operations, FailureKind)
  }

  function Credit(operations: map<Kind, nat>, kind: Kind, octets: nat): (r: map<Kind, nat>)
    ensures OperationTotal(r) == OperationTotal(operations) + octets
    ensures forall k :: Of(r, k) == Of(operations, k) + if k == kind then octets else 0
  {
    var r := operations[kind := Of(operations, kind) + octets];
    assert forall k :: Of(r, k) == Of(operations, k) + if k == kind then octets else 0;
    r
  }

  // ---- Agreement with the carrier's log ----

  /** Record octets and charged octets of one direction in an event log. */
  function RecordOctets(events: seq<CarrierEvent>, direction: Direction): nat {
    if events == [] then
      0
    else
      var e := events[|events| - 1];
      RecordOctets(events[..|events| - 1], direction) + if e.direction == direction then e.recordBytes else 0
  }

  function ChargedTo(events: seq<CarrierEvent>, direction: Direction): nat {
    if events == [] then
      0
    else
      var e := events[|events| - 1];
      ChargedTo(events[..|events| - 1], direction) + if e.direction == direction then e.carrierBytes else 0
  }

  lemma {:induction false} DirectionsSum(events: seq<CarrierEvent>)
    ensures RecordOctets(events, SenderToReceiver) + RecordOctets(events, ReceiverToSender) == Totals(events).submittedBytes
    ensures ChargedTo(events, SenderToReceiver) + ChargedTo(events, ReceiverToSender) == Totals(events).carrierBytes
    ensures Totals(events).submittedRecords == |events|
  {
    if events != [] {
      DirectionsSum(events[..|events| - 1]);
    }
  }

  /** Per direction, per operation, predicted and charged, the books repeat the carrier's log; no quote was ever wrong. */
  ghost predicate Recorded(a: Accounting, events: seq<CarrierEvent>) {
    && a.senderToReceiver == RecordOctets(events, SenderToReceiver)
    && a.receiverToSender == RecordOctets(events, ReceiverToSender)
    && a.carrierSenderToReceiver == ChargedTo(events, SenderToReceiver)
    && a.carrierReceiverToSender == ChargedTo(events, ReceiverToSender)
    && a.predicted == OperationTotal(a.operations) == a.Total()
    && a.quoteError == 0
    && a.sizeChecks == |events|
    && a.payloadDelivered <= a.payloadSubmitted <= Of(a.operations, DataKind)
  }

  /** Which way a record of this kind goes: capabilities and failures either way, requests and receipts back, the others out. */
  predicate Travels(kind: Kind, direction: Direction) {
    match kind
    case CapabilitiesKind => true
    case FailureKind => true
    case SummaryKind => direction == SenderToReceiver
    case OfferKind => direction == SenderToReceiver
    case DataKind => direction == SenderToReceiver
    case RequestKind => direction == ReceiverToSender
    case ReceiptKind => direction == ReceiverToSender
  }

  /** No octets of a kind that goes one way only are booked the other way. */
  ghost predicate Directed(a: Accounting) {
    var out, back := Of(a.operations, SummaryKind) + Of(a.operations, OfferKind) + Of(a.operations, DataKind),
      Of(a.operations, RequestKind) + Of(a.operations, ReceiptKind);
    out <= a.senderToReceiver && back <= a.receiverToSender
  }

  /** The books repeat the log, and everything in them went its way. */
  ghost predicate Booked(a: Accounting, events: seq<CarrierEvent>) {
    Recorded(a, events) && Directed(a)
  }

  lemma BlankIsBooked(a: Accounting, events: seq<CarrierEvent>)
    requires events == []
    requires a.senderToReceiver == a.receiverToSender == a.carrierSenderToReceiver == a.carrierReceiverToSender == 0
    requires a.predicted == a.payloadSubmitted == a.payloadDelivered == a.sizeChecks == 0 && a.quoteError == 0
    requires a.operations == map[]
    ensures Booked(a, events)
  {
  }

  /** Books in which nothing is entered agree with an empty log. */
  method OpenBooks(ghost events: seq<CarrierEvent>) returns (a: Accounting)
    requires events == []
    ensures Booked(a, events) && a.payloadSubmitted == 0 && a.Stored() == BLANK && a.decodeFailures == 0 && a.firstBody.None?
  {
    hide Booked, OperationTotal;
    a := Accounting(0, 0, 0, 0, 0, 0, 0, 0, 0, 0, 0, 0, 0, map[], None);
    BlankIsBooked(a, events);
  }

  /** All the totals of a booked account agree with the octets the carrier spent and charged. */
  lemma BookedTotals(a: Accounting, events: seq<CarrierEvent>)
    requires Booked(a, events)
    ensures a.Total() == OperationTotal(a.operations) == a.predicted == Totals(events).submittedBytes
    ensures a.CarrierTotal() == Totals(events).carrierBytes
    ensures a.payloadSubmitted <= a.Total() && Directed(a)
  {
    DirectionsSum(events);
  }

  /** The account of one more carried record of `octets` octets, `payload` of them representation payload. */
  ghost predicate Entered(a: Accounting, b: Accounting, e: CarrierEvent, kind: Kind, payload: nat) {
    && b.senderToReceiver == a.senderToReceiver + (if e.direction == SenderToReceiver then e.recordBytes else 0)
    && b.receiverToSender == a.receiverToSender + (if e.direction == ReceiverToSender then e.recordBytes else 0)
    && b.carrierSenderToReceiver == a.carrierSenderToReceiver + (if e.direction == SenderToReceiver then e.carrierBytes else 0)
    && b.carrierReceiverToSender == a.carrierReceiverToSender + (if e.direction == ReceiverToSender then e.carrierBytes else 0)
    && b.predicted == a.predicted + e.recordBytes
    && b.quoteError == a.quoteError
    && b.sizeChecks == a.sizeChecks + 1
    && b.operations == Credit(a.operations, kind, e.recordBytes)
    && b.payloadSubmitted == a.payloadSubmitted + payload
    && a.payloadDelivered <= b.payloadDelivered <= a.payloadDelivered + payload
  }

  lemma BookedWithOneMore(a: Accounting, b: Accounting, events: seq<CarrierEvent>, e: CarrierEvent, kind: Kind, payload: nat)
    requires Booked(a, events) && Entered(a, b, e, kind, payload)
    requires payload <= if kind == DataKind then e.recordBytes else 0
    ensures Recorded(b, events + [e])
    ensures Travels(kind, e.direction) ==> Booked(b, events + [e])
  {
    assert (events + [e])[..|events|] == events;
  }

  /** What happens to octets behind the decoder is no matter of carried octets. */
  lemma StillBooked(a: Accounting, b: Accounting, events: seq<CarrierEvent>)
    requires Booked(a, events)
    requires b == a.(usefulCommitted := b.usefulCommitted, integrityFailures := b.integrityFailures,
                     payloadDuplicate := b.payloadDuplicate, firstBody := b.firstBody)
    ensures Booked(b, events)
  {
  }

  // ---- Merging ----

  function Both(a: map<Kind, nat>, b: map<Kind, nat>): (r: map<Kind, nat>)
    ensures OperationTotal(r) == OperationTotal(a) + OperationTotal(b)
    ensures forall k :: Of(r, k) == Of(a, k) + Of(b, k)
  {
    var r := map k | k in a.Keys + b.Keys :: Of(a, k) + Of(b, k);
    assert forall k :: Of(r, k) == Of(a, k) + Of(b, k);
    r
  }

  function Merge(a: Accounting, b: Accounting): (r: Accounting)
    ensures r.Total() == a.Total() + b.Total() && OperationTotal(r.operations) == OperationTotal(a.operations) + OperationTotal(b.operations)
  {
    Accounting(
      a.senderToReceiver + b.senderToReceiver,
      a.receiverToSender + b.receiverToSender,
      a.payloadSubmitted + b.payloadSubmitted,
      a.payloadDelivered + b.payloadDelivered,
      a.payloadDuplicate + b.payloadDuplicate,
      a.usefulCommitted + b.usefulCommitted,
      a.predicted + b.predicted,
      a.quoteError + b.quoteError,
      a.sizeChecks + b.sizeChecks,
      a.decodeFailures + b.decodeFailures,
      a.integrityFailures + b.integrityFailures,
      a.carrierSenderToReceiver + b.carrierSenderToReceiver,
      a.carrierReceiverToSender + b.carrierReceiverToSender,
      Both(a.operations, b.operations),
      if a.firstBody.Some? || b.firstBody.None? then
        a.firstBody
      else
        var f := b.firstBody.value;
        Some(FirstBody(a.Total() + f.bempicBefore, a.Total() + f.bempicThrough,
                       a.CarrierTotal() + f.carrierBefore, a.CarrierTotal() + f.carrierThrough, f.payload)))
  }

  // ---- Budget scope ----

  /** The hard total and directional budgets of one accepted request. */
  class BudgetScope {
    const maxTotal: u64
    const maxSenderToReceiver: u64
    const maxReceiverToSender: u64
    var usedTotal: u64
    var usedSenderToReceiver: u64
    var usedReceiverToSender: u64

    ghost predicate Valid()
      reads this
    {
      && usedTotal == usedSenderToReceiver + usedReceiverToSender <= maxTotal
      && usedSenderToReceiver <= maxSenderToReceiver
      && usedReceiverToSender <= maxReceiverToSender
    }

    constructor (request: DataRequest)
      ensures Valid() && usedTotal == 0
      ensures maxTotal == request.maxTotal
      ensures maxSenderToReceiver == request.maxSenderToReceiver && maxReceiverToSender == request.maxReceiverToSender
    {
      maxTotal, maxSenderToReceiver, maxReceiverToSender := request.maxTotal, request.maxSenderToReceiver, request.maxReceiverToSender;
      usedTotal, usedSenderToReceiver, usedReceiverToSender := 0, 0, 0;
    }

    /** What one direction may still use. */
    function Room(direction: Direction): int
      reads this
    {
      var total, directional := maxTotal - usedTotal,
        if direction == SenderToReceiver then maxSenderToReceiver - usedSenderToReceiver else maxReceiverToSender - usedReceiverToSender;
      if total <= directional then total else directional
    }

    /** A whole record is admitted exactly when both budgets have room, and a refused one changes no counter. */
    method Admit(direction: Direction, octets: u64) returns (admitted: bool)
      requires Valid()
      modifies this
      ensures Valid()
      ensures admitted <==> octets <= old(Room(direction))
      ensures usedSenderToReceiver == old(usedSenderToReceiver) + (if admitted && direction == SenderToReceiver then octets else 0)
      ensures usedReceiverToSender == old(usedReceiverToSender) + (if admitted && direction == ReceiverToSender then octets else 0)
    {
      if usedTotal + octets > U64_MAX {
        return false;
      }
      var total := usedTotal + octets;
      if total > maxTotal {
        return false;
      }
      match direction {
        case SenderToReceiver =>
          if usedSenderToReceiver + octets > U64_MAX || usedSenderToReceiver + octets > maxSenderToReceiver {
            return false;
          }
          usedSenderToReceiver := usedSenderToReceiver + octets;
        case ReceiverToSender =>
          if usedReceiverToSender + octets > U64_MAX || usedReceiverToSender + octets > maxReceiverToSender {
            return false;
          }
          usedReceiverToSender := usedReceiverToSender + octets;
      }
      usedTotal := total;
      admitted := true;
    }
  }
}
