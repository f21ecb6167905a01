/** The two ends of a contact: a volatile sender over immutable bytes and a receiver over its two durable stores. */
module Endpoints {
  import opened Wrappers
  import opened Octets
  import opened Representation
  import opened RepresentationSafety
  import opened RepresentationRuns
  import opened PrefixAssembly
  import opened RepresentationStores
  import opened Operations
  import opened Submission
  import ProtocolStores
  import ProtocolSafety
  import ProtocolSpec
  import Spec = RepresentationSpec

  // ---- Sender ----

  datatype SenderState = Available | Offered | Requested | Sending | AwaitingReceipt | Receipted

  /** How far the exchange has come. */
  function Rank(state: SenderState): nat {
    match state case Available => 0 case Offered => 1 case Requested => 2 case Sending => 3 case AwaitingReceipt => 4 case Receipted => 5
  }

  /** One legal forward transition: a step further, or sending again. */
  function Transition(from: SenderState, next: SenderState): (r: Result<SenderState, ContactError>)
    ensures r == if Rank(next) == Rank(from) + 1 || from == next == Sending then Ok(next) else Err(InvalidTransition)
  {
    if || (from == Available && next == Offered)
       || (from == Offered && next == Requested)
       || ((from == Requested || from == Sending) && next == Sending)
       || (from == Sending && next == AwaitingReceipt)
       || (from == AwaitingReceipt && next == Receipted)
    then Ok(next) else Err(InvalidTransition)
  }

  datatype AuthorizedSource = AuthorizedSource(sourceId: Octets32, representationId: Octets32)

  class Sender {
    const representation: Prepared
    var sourceId: Octets32
    var state: SenderState

    constructor (representation: Prepared, sourceId: Octets32)
      ensures this.representation == representation && this.sourceId == sourceId && state == Available
    {
      this.representation, this.sourceId, state := representation, sourceId, Available;
    }

    predicate Authorizes(source: AuthorizedSource)
      reads this
    {
      source.sourceId == sourceId && source.representationId == representation.descriptor.representationId
    }

    /** An offered sender becomes requested; one already beyond stays where it is. */
    method PrepareForRequest()
      modifies this`state
      ensures state == if old(state) == Available || old(state) == Offered then Requested else old(state)
    {
      if state == Available {
        state := Transition(state, Offered).value;
      }
      if state == Offered {
        state := Transition(state, Requested).value;
      }
    }
  }

  // ---- Receiver ----

  const OPAQUE_SCHEMA: Bytes :=
    [0xd8, 0x90, 0x6a, 0x1c, 0xef, 0xbf, 0x89, 0xe4, 0xf2, 0x9b, 0x4a, 0x0f, 0x63, 0x6c, 0xfb, 0xfa,
     0x1e, 0x9c, 0x63, 0x01, 0xe7, 0xe3, 0xa4, 0xfe, 0x21, 0x3c, 0x09, 0x00, 0x66, 0xf8, 0xe7, 0x97]

  predicate ValidateOpaque(bytes: Bytes, d: Descriptor) {
    d.schemaFingerprint == OPAQUE_SCHEMA && d.decodedLength.None? && |bytes| == d.encodedLength
  }

  /** A disk that opens, on which receipts stand only beside committed octets. */
  ghost predicate Honest(sha: Hash, d: Descriptor, img: Image) {
    Recoverable(sha, d, img) && (ViewAt(d, img).receipts != {} ==> ViewAt(d, img).committed)
  }

  /** An honest disk that holds nothing but first octets of the whole, if one is given. */
  ghost predicate Sane(sha: Hash, d: Descriptor, img: Image, whole: Option<Bytes>) {
    Honest(sha, d, img) && (whole.Some? ==> ViewAt(d, img).content <= whole.value)
  }

  /** Every image the disk ever exposed to a crash, and the present one, is sane. */
  ghost predicate Survives(sha: Hash, d: Descriptor, disk: Disk, whole: Option<Bytes>)
    reads disk
  {
    Sane(sha, d, disk.Now(), whole) && forall k | 0 <= k < |disk.exposed| :: Sane(sha, d, disk.exposed[k], whole)
  }

  lemma SurvivesAnyway(sha: Hash, d: Descriptor, disk: Disk, whole: Option<Bytes>)
    requires Survives(sha, d, disk, whole)
    ensures Survives(sha, d, disk, None)
  {
  }

  /** The payload lies in the whole, if one is given, at this offset. */
  ghost predicate PartOf(offset: nat, payload: Bytes, whole: Option<Bytes>) {
    whole.Some? ==> offset + |payload| <= |whole.value| && whole.value[offset..offset + |payload|] == payload
  }

  /** A call cut anywhere stays honest, provided receipts are only recorded once the octets are committed. */
  lemma CutIsHonest(sha: Hash, call: Call, st: State, img: Image, cut: Image)
    requires Live(sha, st, img) && SoundCut(sha, call, st, img, cut)
    requires st.receipts != {} || call.ReceiptCall? ==> st.status == Spec.Committed
    ensures Honest(sha, st.descriptor, cut)
  {
  }

  /** Octets that continue first octets of the whole with a part of it are first octets of the whole. */
  lemma AppendedIsPart(length: nat, offset: nat, payload: Bytes, before: Bytes, after: Bytes, whole: Bytes)
    requires Appended(length, offset, payload, before, after) && before <= whole && PartOf(offset, payload, Some(whole))
    ensures after <= whole
  {
    var n := |before| - offset;
    forall i | 0 <= i < |after|
      ensures i < |whole| && after[i] == whole[i]
    {
      if i >= |before| {
        assert after[i] == (before + payload[n..])[i] == payload[i - offset] == whole[offset..offset + |payload|][i - offset];
      }
    }
  }

  /** A call cut anywhere leaves first octets of the whole, provided the data it takes is part of it. */
  lemma CutIsSane(sha: Hash, call: Call, st: State, img: Image, cut: Image, whole: Option<Bytes>)
    requires Live(sha, st, img) && SoundCut(sha, call, st, img, cut)
    requires st.receipts != {} || call.ReceiptCall? ==> st.status == Spec.Committed
    requires whole.Some? ==> ViewOf(st, img).content <= whole.value
    requires call.AcceptDataCall? ==> PartOf(call.offset, call.payload, whole)
    ensures Sane(sha, st.descriptor, cut, whole)
  {
    CutIsHonest(sha, call, st, img, cut);
    if whole.Some? && call.AcceptDataCall? {
      var before, after := ViewOf(st, img), ViewAt(st.descriptor, cut);
      if after != before && after.content != [] {
        AppendedIsPart(st.descriptor.encodedLength, call.offset, call.payload, before.content, after.content, whole.value);
      }
    }
  }

  /** Whatever opening exposes shows the view the disk showed before. */
  lemma OpenedSurvives(sha: Hash, d: Descriptor, was: Image, earlier: seq<Image>, disk: Disk, whole: Option<Bytes>)
    requires Sane(sha, d, was, whole) && (forall k | 0 <= k < |earlier| :: Sane(sha, d, earlier[k], whole))
    requires disk.exposed == earlier + Spec.Open(sha, was, d).trace && disk.Now() == Spec.After(was, Spec.Open(sha, was, d).trace)
    ensures Survives(sha, d, disk, whole)
  {
    OpenSound(sha, d, was);
    var trace := Spec.Open(sha, was, d).trace;
    forall k | 0 <= k < |disk.exposed|
      ensures Sane(sha, d, disk.exposed[k], whole)
    {
      if k >= |earlier| {
        assert disk.exposed[k] == trace[k - |earlier|];
      }
    }
  }

  // ---- Data that is taken ----

  /** The payload lies in these octets at its offset. */
  ghost predicate LiesIn(data: Data, content: Bytes) {
    data.offset + |data.payload| <= |content| && content[data.offset..data.offset + |data.payload|] == data.payload
  }

  /** Data of this representation, within its length, that either continues the prefix or repeats part of it. */
  ghost predicate ExpectsData(st: State, content: Bytes, data: Data) {
    && data.representationId == st.descriptor.representationId && data.payload != []
    && data.offset + |data.payload| <= st.descriptor.encodedLength
    && st.status != Spec.Absent && st.status != Spec.Committed
    && (data.offset == |content| || LiesIn(data, content))
  }

  /** A replay inside the held octets adds none of them. */
  lemma ReplayAddsNothing(sha: Hash, st: State, img: Image, data: Data)
    requires Live(sha, st, img) && Spec.AcceptData(st, img, data.representationId, data.offset, data.payload).result.Ok?
    ensures data.offset + |data.payload| <= |ViewOf(st, img).content| ==>
              Spec.AcceptData(st, img, data.representationId, data.offset, data.payload).result.value.acceptedOctets == 0
  {
    if data.offset + |data.payload| <= |ViewOf(st, img).content| {
      ReplayIsDurable(st, img, data.representationId, data.offset, data.payload);
    }
  }

  lemma AcceptedOnlyAdds(sha: Hash, st: State, img: Image, data: Data)
    requires Live(sha, st, img) && Spec.AcceptData(st, img, data.representationId, data.offset, data.payload).result.Ok?
    ensures var e := Spec.AcceptData(st, img, data.representationId, data.offset, data.payload);
            && st.status != Spec.Absent && e.state.status != Spec.Absent
            && (e.state.status == Spec.Committed <==> st.status == Spec.Committed)
            && e.state.descriptor == st.descriptor && e.state.receipts == st.receipts
  {
  }

  /** Taking data changes neither descriptor nor receipts, keeps the octets and has the payload among them. */
  lemma AcceptedKeeps(sha: Hash, st: State, img: Image, data: Data)
    requires Live(sha, st, img) && Spec.AcceptData(st, img, data.representationId, data.offset, data.payload).result.Ok?
    ensures var e := Spec.AcceptData(st, img, data.representationId, data.offset, data.payload);
            && st.status != Spec.Absent && e.state.status != Spec.Absent
            && (e.state.status == Spec.Committed <==> st.status == Spec.Committed)
            && e.state.descriptor == st.descriptor && e.state.receipts == st.receipts
            && e.result.value.acceptedOctets + e.result.value.duplicateOctets == |data.payload|
            && var content, content' := ViewOf(st, img).content, ViewOf(e.state, Spec.After(img, e.trace)).content;
               && content <= content' && |content'| == |content| + e.result.value.acceptedOctets && LiesIn(data, content')
               && (data.offset + |data.payload| <= |content| ==> e.result.value.acceptedOctets == 0)
  {
    hide Live, Sound, Spec.AcceptData, ViewOf;
    AcceptedOnlyAdds(sha, st, img, data);
    ReplayAddsNothing(sha, st, img, data);
    AcceptDataSound(sha, st, img, data.representationId, data.offset, data.payload);
    ContentKept(sha, st, img, data.representationId, data.offset, data.payload);
  }

  /** Expected data is accepted: all of it new when it continues the prefix, all of it duplicate when it repeats it. */
  lemma ExpectedIsAccepted(sha: Hash, st: State, img: Image, data: Data)
    requires Live(sha, st, img) && st.sequence < U64_MAX && ExpectsData(st, ViewOf(st, img).content, data)
    ensures Spec.AcceptData(st, img, data.representationId, data.offset, data.payload).result ==
              Ok(if LiesIn(data, ViewOf(st, img).content) then Spec.Accepted(0, |data.payload|) else Spec.Accepted(|data.payload|, 0))
  {
    assert data.payload[..|data.payload|] == data.payload;
    assert data.payload[0..] == data.payload;
  }

  // ---- Verification and commit of a complete prefix ----

  lemma VerifyOutcome(sha: Hash, st: State, img: Image)
    requires Live(sha, st, img) && st.status != Spec.Committed && st.prefix == st.descriptor.encodedLength
    ensures var e := Spec.VerifyStaged(sha, ValidateOpaque, st, img);
            var content, content' := ViewOf(st, img).content, ViewOf(e.state, Spec.After(img, e.trace)).content;
            var passes := Verify(sha, st.descriptor, content) && ValidateOpaque(content, st.descriptor);
            && e.state.sequence <= st.sequence + 1
            && (e.result.Err? && e.result.error != Spec.IntegrityOrDecode ==> e.result.error == Spec.SequenceExhausted && st.sequence == U64_MAX)
            && (e.result.Ok? || e.result.error == Spec.IntegrityOrDecode ==>
                  && e.state.descriptor == st.descriptor && e.state.receipts == st.receipts
                  && (e.result.Ok? ==> e.result.value && passes && e.state.status == Spec.Verified && content' == content)
                  && (e.result.Err? ==> !passes && e.state.status == Spec.Offered && content' == []))
  {
  }

  lemma CommitOutcome(sha: Hash, st: State, img: Image)
    requires Live(sha, st, img) && st.status == Spec.Verified
    ensures var e := Spec.CommitVerified(sha, st, img);
            && e.state.sequence <= st.sequence + 1
            && (e.result.Err? ==> e.result.error == Spec.SequenceExhausted && st.sequence == U64_MAX)
            && (e.result.Ok? ==>
                  && e.result.value && e.state.status == Spec.Committed
                  && e.state.descriptor == st.descriptor && e.state.receipts == st.receipts
                  && ViewOf(e.state, Spec.After(img, e.trace)).content == ViewOf(st, img).content)
  {
  }

  datatype RepresentationSnapshot = RepresentationSnapshot(descriptor: Descriptor, accepted: bool, prefix: nat, committed: bool)

  datatype Held = Held(descriptor: Descriptor, accepted: bool, content: Bytes, committed: bool, receipts: set<Octets16>)

  /** What a receiver opened on this disk durably is. */
  ghost function HeldOn(d: Descriptor, img: Image): Held
    requires Spec.Newest(img, d).Ok?
  {
    var v := ViewAt(d, img);
    Held(d, v.accepted, v.content, v.committed, v.receipts)
  }

  class Receiver {
    const protocol: ProtocolStores.ProtocolStore
    const representation: RepresentationStore
    /** The octets of which the receiver shall never hold anything but a prefix; none where data may arrive altered. */
    ghost const whole: Option<Bytes>

    constructor (protocol: ProtocolStores.ProtocolStore, representation: RepresentationStore, ghost whole: Option<Bytes>)
      ensures this.protocol == protocol && this.representation == representation && this.whole == whole
    {
      this.protocol, this.representation, this.whole := protocol, representation, whole;
    }

    /** The stores are usable, no crash so far could have lost anything, and receipts stand only beside committed octets. */
    ghost predicate Valid()
      reads representation, representation.disk
    {
      && representation.Valid()
      && (representation.state.receipts != {} ==> representation.state.status == Spec.Committed)
      && Survives(representation.sha, representation.state.descriptor, representation.disk, whole)
    }

    /** Reopens both stores; a survivable disk opens with the view it showed, and stays survivable whatever the outcome. */
    static method Open(sha: Hash, slots: ProtocolStores.Slots, disk: Disk, d: Descriptor, ghost whole: Option<Bytes>)
      returns (r: Result<Receiver, ContactError>)
      modifies disk
      ensures old(Survives(sha, d, disk, whole)) ==> Survives(sha, d, disk, whole)
      ensures r.Ok? ==> d.Valid()
      ensures r.Ok? ==>
                && fresh(r.value.representation) && fresh(r.value.protocol)
                && r.value.representation.disk == disk && r.value.protocol.slots == slots && r.value.representation.sha == sha
                && r.value.whole == whole
      ensures r.Ok? && old(Survives(sha, d, disk, whole)) ==>
                && r.value.Valid() && r.value.DurableState() == old(HeldOn(d, disk.Now()))
                && r.value.representation.state.sequence <= Spec.Newest(old(disk.Now()), d).value.sequence + 1
      ensures r.Ok? ==> ProtocolSpec.Open(slots.Now()) == Ok(r.value.protocol.state)
      ensures r.Ok? && slots.Survives() ==> r.value.protocol.Valid() && r.value.protocol.state == r.value.protocol.Durable()
      ensures old(Survives(sha, d, disk, whole)) && d.Valid() && slots.Survives() && Spec.Newest(old(disk.Now()), d).value.sequence < U64_MAX ==>
                (r.Ok? <==> slots.Now() != ProtocolSafety.TORN_FIRST)
    {
      ghost var was := disk.Now();
      ghost var earlier := disk.exposed;
      if Survives(sha, d, disk, whole) {
        OpenSound(sha, d, was);
      }
      var protocol := ProtocolStores.ProtocolStore.Open(sha, slots);
      if protocol.Err? {
        return Err(ProtocolFailed(protocol.error));
      }
      var representation := RepresentationStore.Open(sha, disk, d);
      if old(Survives(sha, d, disk, whole)) {
        OpenedSurvives(sha, d, was, earlier, disk, whole);
      }
      if representation.Err? {
        return Err(RepresentationFailed(representation.error));
      }
      var receiver := new Receiver(protocol.value, representation.value, whole);
      r := Ok(receiver);
    }

    function Snapshot(): RepresentationSnapshot
      reads representation
    {
      var st := representation.state;
      RepresentationSnapshot(st.descriptor, st.status != Spec.Absent, st.prefix, st.status == Spec.Committed)
    }

    /** The durable octets. */
    ghost function Content(): Bytes
      reads representation, representation.disk
    {
      ViewOf(representation.state, representation.disk.Now()).content
    }

    /** What the receiver durably is, apart from how far verification got. */
    ghost function DurableState(): Held
      reads representation, representation.disk
    {
      var st := representation.state;
      Held(st.descriptor, st.status != Spec.Absent, Content(), st.status == Spec.Committed, st.receipts)
    }

    /** A usable receiver durably is what a reopening of its disk would find. */
    lemma HeldOnDisk()
      requires Valid()
      ensures Spec.Newest(representation.disk.Now(), representation.state.descriptor).Ok?
      ensures DurableState() == HeldOn(representation.state.descriptor, representation.disk.Now())
    {
      BackedIsNewest(representation.state, representation.disk.Now());
    }

    lemma ContentIsPrefix()
      requires Valid()
      ensures |Content()| == representation.state.prefix <= representation.state.descriptor.encodedLength
      ensures representation.state.descriptor.Valid()
      ensures representation.state.status == Spec.Committed ==> Verify(representation.sha, representation.state.descriptor, Content())
    {
    }

    /** After a specified call the disk still survives everything, and the store is valid unless its sequence ran out. */
    twostate lemma StaysHonest<T(!new)>(new call: Call, new e: Spec.Effect<T>, new r: Result<T, StoreError>)
      requires old(Valid()) && representation.Did(e, r)
      requires Sound(representation.sha, call, old(representation.state), old(representation.disk.Now()), e)
      requires call.ReceiptCall? ==> old(representation.state.status) == Spec.Committed
      requires call.AcceptDataCall? ==> PartOf(call.offset, call.payload, whole)
      ensures Survives(representation.sha, old(representation.state.descriptor), representation.disk, whole)
      ensures r != Err(Spec.SequenceExhausted) ==> representation.Valid()
    {
      representation.DidSafe(call, e, r);
      var disk := representation.disk;
      forall k | |old(disk.exposed)| <= k < |disk.exposed|
        ensures Sane(representation.sha, old(representation.state.descriptor), disk.exposed[k], whole)
      {
        CutIsSane(representation.sha, call, old(representation.state), old(disk.Now()), disk.exposed[k], whole);
      }
      if e.trace != [] {
        assert disk.Now() == disk.exposed[|disk.exposed| - 1];
      }
    }

    // ---- Calls on the representation store ----

    ghost predicate SavesLeft(n: nat)
      reads representation
    {
      representation.state.sequence + n <= U64_MAX
    }

    method AcceptDescriptor(d: Descriptor) returns (r: Outcome<ContactError>)
      requires Valid()
      modifies representation, representation.disk
      ensures Survives(representation.sha, old(representation.state.descriptor), representation.disk, whole)
      ensures representation.state.sequence <= old(representation.state.sequence) + 1
      ensures r.Pass? ==> Valid() && DurableState() == old(DurableState()).(accepted := true)
      ensures d == old(representation.state.descriptor) && old(SavesLeft(1)) ==> r.Pass?
      ensures d != old(representation.state.descriptor) ==>
                r == Fail(RepresentationFailed(Spec.IdentityConflict)) && DurableState() == old(DurableState())
    {
      ghost var st, img := representation.state, representation.disk.Now();
      var done := representation.AcceptDescriptor(d);
      AcceptDescriptorSound(representation.sha, st, img, d);
      StaysHonest(AcceptDescriptorCall(d), Spec.AcceptDescriptor(st, img, d), done);
      r := if done.Err? then Fail(RepresentationFailed(done.error)) else Pass;
    }

    method AcceptData(data: Data) returns (r: Result<Spec.Accepted, ContactError>)
      requires Valid() && PartOf(data.offset, data.payload, whole)
      modifies representation, representation.disk
      ensures Survives(representation.sha, old(representation.state.descriptor), representation.disk, whole)
      ensures representation.state.sequence <= old(representation.state.sequence) + 1
      ensures r.Ok? ==>
                && Valid() && DurableState() == old(DurableState()).(content := Content()) && DurableState().accepted
                && r.value.acceptedOctets + r.value.duplicateOctets == |data.payload|
                && old(Content()) <= Content() && |Content()| == |old(Content())| + r.value.acceptedOctets
                && LiesIn(data, Content())
                && (data.offset + |data.payload| <= |old(Content())| ==> r.value.acceptedOctets == 0)
      ensures old(SavesLeft(1)) && ExpectsData(old(representation.state), old(Content()), data) ==>
                r == Ok(if LiesIn(data, old(Content())) then Spec.Accepted(0, |data.payload|) else Spec.Accepted(|data.payload|, 0))
    {
      ghost var st, img := representation.state, representation.disk.Now();
      var done := representation.AcceptData(data.representationId, data.offset, data.payload);
      ghost var e := Spec.AcceptData(st, img, data.representationId, data.offset, data.payload);
      AcceptDataSound(representation.sha, st, img, data.representationId, data.offset, data.payload);
      StaysHonest(AcceptDataCall(data.representationId, data.offset, data.payload), e, done);
      if done.Ok? {
        AcceptedKeeps(representation.sha, st, img, data);
      }
      if st.sequence < U64_MAX && ExpectsData(st, ViewOf(st, img).content, data) {
        ExpectedIsAccepted(representation.sha, st, img, data);
      }
      r := if done.Err? then Err(RepresentationFailed(done.error)) else Ok(done.value);
    }

    /** Whole-representation verification of a complete, uncommitted prefix. */
    method VerifyStaged() returns (r: Result<bool, StoreError>)
      requires Valid() && Complete() && !Snapshot().committed
      modifies representation, representation.disk
      ensures Survives(representation.sha, old(representation.state.descriptor), representation.disk, whole)
      ensures representation.state.sequence <= old(representation.state.sequence) + 1
      ensures old(SavesLeft(1)) && r.Err? ==> r.error == Spec.IntegrityOrDecode
      ensures r.Ok? || r == Err(Spec.IntegrityOrDecode) ==>
                && Valid() && DurableState() == old(DurableState()).(accepted := true, content := if r.Ok? then old(Content()) else [])
                && (r == Ok(true) <==> old(Passes()))
                && (r.Ok? ==> r.value && representation.state.status == Spec.Verified)
    {
      ghost var st, img := representation.state, representation.disk.Now();
      r := representation.VerifyStagedWith(ValidateOpaque);
      VerifySound(representation.sha, ValidateOpaque, st, img);
      StaysHonest(VerifyCall(ValidateOpaque), Spec.VerifyStaged(representation.sha, ValidateOpaque, st, img), r);
      VerifyOutcome(representation.sha, st, img);
    }

    predicate Complete()
      reads representation
    {
      representation.state.prefix == representation.state.descriptor.encodedLength
    }

    /** The durable octets are the described representation and decode. */
    ghost predicate Passes()
      reads representation, representation.disk
    {
      Verify(representation.sha, representation.state.descriptor, Content()) && ValidateOpaque(Content(), representation.state.descriptor)
    }

    method CommitVerified() returns (r: Result<bool, StoreError>)
      requires Valid() && representation.state.status == Spec.Verified
      modifies representation, representation.disk
      ensures Survives(representation.sha, old(representation.state.descriptor), representation.disk, whole)
      ensures representation.state.sequence <= old(representation.state.sequence) + 1
      ensures old(SavesLeft(1)) ==> r.Ok?
      ensures r.Ok? ==>
                && r.value && Valid() && DurableState() == old(DurableState()).(committed := true)
    {
      ghost var st, img := representation.state, representation.disk.Now();
      r := representation.CommitVerified();
      CommitSound(representation.sha, st, img);
      StaysHonest(CommitCall, Spec.CommitVerified(representation.sha, st, img), r);
      CommitOutcome(representation.sha, st, img);
    }

    method CommitReceipt(id: Octets16) returns (r: Outcome<ContactError>)
      requires Valid() && representation.state.status == Spec.Committed
      modifies representation, representation.disk
      ensures Survives(representation.sha, old(representation.state.descriptor), representation.disk, whole)
      ensures representation.state.sequence <= old(representation.state.sequence) + 1
      ensures old(SavesLeft(1)) ==> r.Pass?
      ensures r.Pass? ==>
                && Valid() && DurableState() == old(DurableState()).(receipts := old(DurableState()).receipts + {id})
    {
      ghost var st, img := representation.state, representation.disk.Now();
      var done := representation.CommitReceipt(id);
      ReceiptSound(representation.sha, st, img, id);
      StaysHonest(ReceiptCall(id), Spec.CommitReceipt(st, img, id), done);
      r := if done.Err? then Fail(RepresentationFailed(done.error)) else Pass;
    }
  }
}
