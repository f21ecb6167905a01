/**
 What each call of the representation store does to its volatile state and to the disk.

 A call is described by its trace: every image of the disk that a crash during the call may leave,
 in order, the last one being the image the completed call leaves. An append exposes every prefix
 of the appended octets, a replacement exposes the moment at which the destination is removed.
 */
module RepresentationSpec {
  import opened Wrappers
  import opened Octets
  import opened Representation

  datatype Status = Absent | Offered | Partial | CompleteUnverified | Verified | Committed

  datatype State = State(
    sequence: u64,
    descriptor: Descriptor,
    status: Status,
    prefix: u64,
    receipts: set<Octets16>)

  function Fresh(d: Descriptor): State {
    State(0, d, Absent, 0, {})
  }

  datatype Slot = Missing | Torn | Holds(state: State)

  datatype Image = Image(
    slot0: Slot,
    slot1: Slot,
    part: Option<Bytes>,
    complete: Option<Bytes>,
    quarantined: seq<Bytes>)
  {
    function SlotAt(index: nat): Slot
      requires index < 2
    {
      if index == 0 then slot0 else slot1
    }

    function WithSlot(index: nat, slot: Slot): Image
      requires index < 2
    {
      if index == 0 then this.(slot0 := slot) else this.(slot1 := slot)
    }

    function PartOctets(): Bytes {
      if part.Some? then part.value else []
    }
  }

  const EMPTY_DISK := Image(Missing, Missing, None, None, [])

  datatype StoreError =
    | Io | InvalidDescriptor | IdentityConflict | NoRecoverableSlot | SequenceExhausted | EmptyData | DescriptorNotAccepted
    | Length | DataExceedsDescriptor | NonContiguous | ConflictingReplay | NotComplete | IntegrityOrDecode

  datatype Accepted = Accepted(acceptedOctets: nat, duplicateOctets: nat)

  datatype Effect<+T> = Effect(trace: seq<Image>, state: State, result: Result<T, StoreError>)

  /** The image a completed trace leaves. */
  function After(img: Image, trace: seq<Image>): Image {
    if trace == [] then img else trace[|trace| - 1]
  }

  // ---- Durable actions ----

  function ReplaceSlotTrace(img: Image, index: nat, state: State): seq<Image>
    requires index < 2
  {
    [img.WithSlot(index, Missing), img.WithSlot(index, Holds(state))]
  }

  function AppendTrace(img: Image, suffix: Bytes): seq<Image> {
    seq(|suffix| + 1, k requires 0 <= k <= |suffix| => img.(part := Some(img.PartOctets() + suffix[..k])))
  }

  function CreatePartTrace(img: Image): seq<Image> {
    [img.(part := Some([]))]
  }

  function PromoteTrace(img: Image): seq<Image> {
    [img.(complete := None), img.(complete := img.part, part := None)]
  }

  function QuarantineTrace(img: Image): seq<Image> {
    [img.(part := None, quarantined := img.quarantined + [img.PartOctets()])]
  }

  // ---- Calls ----

  function Save(st: State, img: Image): Effect<()> {
    if st.sequence == U64_MAX then
      Effect([], st, Err(SequenceExhausted))
    else
      var next := st.(sequence := st.sequence + 1);
      Effect(ReplaceSlotTrace(img, next.sequence % 2, next), next, Ok(()))
  }

  /** Durable actions already performed, then a save, then the reply. */
  function SaveAfter<T>(st: State, img: Image, done: seq<Image>, reply: T): Effect<T> {
    var saved := Save(st, After(img, done));
    Effect(done + saved.trace, saved.state, if saved.result.Ok? then Ok(reply) else Err(saved.result.error))
  }

  function AcceptDescriptor(st: State, img: Image, d: Descriptor): Effect<bool> {
    if d != st.descriptor then
      Effect([], st, Err(IdentityConflict))
    else if st.status != Absent then
      Effect([], st, Ok(false))
    else
      SaveAfter(st.(status := if d.encodedLength == 0 then CompleteUnverified else Offered), img, [], true)
  }

  function VerifyDuplicate(file: Option<Bytes>, offset: nat, expected: Bytes): Outcome<StoreError> {
    if file.None? || offset + |expected| > |file.value| then
      Fail(Io)
    else if file.value[offset..offset + |expected|] == expected then
      Pass
    else
      Fail(ConflictingReplay)
  }

  function AcceptData(st: State, img: Image, id: Octets32, offset: u64, payload: Bytes): Effect<Accepted> {
    if id != st.descriptor.representationId then
      Effect([], st, Err(IdentityConflict))
    else if payload == [] then
      Effect([], st, Err(EmptyData))
    else if st.status == Absent then
      Effect([], st, Err(DescriptorNotAccepted))
    else if offset + |payload| > U64_MAX then
      Effect([], st, Err(Length))
    else if offset + |payload| > st.descriptor.encodedLength then
      Effect([], st, Err(DataExceedsDescriptor))
    else if st.status == Committed then
      var check := VerifyDuplicate(img.complete, offset, payload);
      Effect([], st, if check.Fail? then Err(check.error) else Ok(Accepted(0, |payload|)))
    else if offset > st.prefix then
      Effect([], st, Err(NonContiguous))
    else
      var overlap := Min(|payload|, st.prefix - offset);
      var check := if overlap > 0 then VerifyDuplicate(img.part, offset, payload[..overlap]) else Pass;
      if check.Fail? then
        Effect([], st, Err(check.error))
      else if overlap == |payload| then
        Effect([], st, Ok(Accepted(0, |payload|)))
      else
        AfterAppend(st, img, AppendTrace(img, payload[overlap..]), |payload| - overlap, overlap)
  }

  /** The save that follows an append of `added` octets with the given trace. */
  function AfterAppend(st: State, img: Image, appended: seq<Image>, added: nat, overlap: nat): Effect<Accepted>
    requires st.prefix + added <= st.descriptor.encodedLength
  {
    var prefix := st.prefix + added;
    var status := if prefix == st.descriptor.encodedLength then CompleteUnverified else Partial;
    SaveAfter(st.(prefix := prefix, status := status), img, appended, Accepted(added, overlap))
  }

  type Validator = (Bytes, Descriptor) -> bool

  function ReadComplete(sha: Hash, st: State, img: Image): Result<Bytes, StoreError> {
    if st.status != Committed || img.complete.None? then
      Err(NotComplete)
    else if !Verify(sha, st.descriptor, img.complete.value) then
      Err(IntegrityOrDecode)
    else
      Ok(img.complete.value)
  }

  function Quarantine(st: State, img: Image): Effect<()> {
    SaveAfter(st.(status := Offered, prefix := 0), img, if img.part.Some? then QuarantineTrace(img) else [], ())
  }

  function VerifyStaged(sha: Hash, validator: Validator, st: State, img: Image): Effect<bool> {
    if st.status == Committed then
      var read := ReadComplete(sha, st, img);
      Effect([], st, if read.Ok? then Ok(true) else Err(read.error))
    else if st.prefix != st.descriptor.encodedLength then
      Effect([], st, Ok(false))
    else if img.part.None? && st.descriptor.encodedLength != 0 then
      Effect([], st, Err(NotComplete))
    else if !Verify(sha, st.descriptor, img.PartOctets()) || !validator(img.PartOctets(), st.descriptor) then
      var q := Quarantine(st, img);
      Effect(q.trace, q.state, Err(if q.result.Ok? then IntegrityOrDecode else q.result.error))
    else
      SaveAfter(st.(status := Verified), img, [], true)
  }

  function CommitVerified(sha: Hash, st: State, img: Image): Effect<bool> {
    if st.status == Committed then
      var read := ReadComplete(sha, st, img);
      Effect([], st, if read.Ok? then Ok(true) else Err(read.error))
    else if st.status != Verified then
      Effect([], st, Ok(false))
    else
      var created := if img.part.None? then CreatePartTrace(img) else [];
      var promoted := created + PromoteTrace(After(img, created));
      SaveAfter(st.(status := Committed, prefix := st.descriptor.encodedLength), img, promoted, true)
  }

  function CommitReceipt(st: State, img: Image, id: Octets16): Effect<bool> {
    if id in st.receipts then
      Effect([], st, Ok(false))
    else
      SaveAfter(st.(receipts := st.receipts + {id}), img, [], true)
  }

  // ---- Opening ----

  function Newest(img: Image, d: Descriptor): Result<State, StoreError> {
    if (img.slot0.Holds? && img.slot0.state.descriptor != d) || (img.slot1.Holds? && img.slot1.state.descriptor != d) then
      Err(IdentityConflict)
    else if !img.slot0.Holds? && !img.slot1.Holds? then
      if img.slot0.Torn? || img.slot1.Torn? then Err(NoRecoverableSlot) else Ok(Fresh(d))
    else if img.slot1.Holds? && (img.slot0.Holds? ==> img.slot0.state.sequence <= img.slot1.state.sequence) then
      Ok(img.slot1.state)
    else
      Ok(img.slot0.state)
  }

  function ReconciledStatus(status: Status, actual: nat, length: nat): Status {
    if status == Absent then
      Absent
    else if actual == length then
      if status == Verified then Verified else CompleteUnverified
    else if actual == 0 then
      Offered
    else
      Partial
  }

  /** The state rebuilt from the newest slot and the files. */
  function Rebuilt(sha: Hash, st: State, img: Image): Result<State, StoreError> {
    if img.complete.Some? then
      if !Verify(sha, st.descriptor, img.complete.value) then
        Err(IntegrityOrDecode)
      else
        Ok(st.(status := Committed, prefix := st.descriptor.encodedLength))
    else if |img.PartOctets()| > st.descriptor.encodedLength then
      Err(DataExceedsDescriptor)
    else if st.status == Absent && img.PartOctets() != [] then
      Err(DescriptorNotAccepted)
    else
      var actual := |img.PartOctets()|;
      Ok(st.(prefix := actual, status := ReconciledStatus(st.status, actual, st.descriptor.encodedLength)))
  }

  function Reconcile(sha: Hash, st: State, img: Image): Effect<()> {
    var rebuilt := Rebuilt(sha, st, img);
    if rebuilt.Err? then
      Effect([], st, Err(rebuilt.error))
    else if rebuilt.value != st then
      SaveAfter(rebuilt.value, img, [], ())
    else
      Effect([], st, Ok(()))
  }

  function Open(sha: Hash, img: Image, d: Descriptor): Effect<()> {
    if !d.Valid() then
      Effect([], Fresh(d), Err(InvalidDescriptor))
    else
      var newest := Newest(img, d);
      if newest.Err? then Effect([], Fresh(d), Err(newest.error)) else Reconcile(sha, newest.value, img)
  }
}
