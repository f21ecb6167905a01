/** What every crash-interrupted call of the representation store leaves recoverable. */
module RepresentationSafety {
  import opened Wrappers
  import opened Octets
  import opened Representation
  import opened RepresentationSpec

  datatype Call =
    | AcceptDescriptorCall(d: Descriptor)
    | AcceptDataCall(id: Octets32, offset: u64, payload: Bytes)
    | VerifyCall(validator: Validator)
    | CommitCall
    | ReceiptCall(receipt: Octets16)

  /** Trace and final state of any call; the replies have different types and are stated call by call. */
  function Perform(sha: Hash, st: State, img: Image, call: Call): Effect<()> {
    match call
    case AcceptDescriptorCall(d) => Erase(AcceptDescriptor(st, img, d))
    case AcceptDataCall(id, offset, payload) => Erase(AcceptData(st, img, id, offset, payload))
    case VerifyCall(validator) => Erase(VerifyStaged(sha, validator, st, img))
    case CommitCall => Erase(CommitVerified(sha, st, img))
    case ReceiptCall(receipt) => Erase(CommitReceipt(st, img, receipt))
  }

  function Erase<T>(e: Effect<T>): Effect<()> {
    Effect(e.trace, e.state, if e.result.Ok? then Ok(()) else Err(e.result.error))
  }

  /** What the disk durably says, independent of slots, sequence numbers and crash debris. */
  datatype View = View(accepted: bool, content: Bytes, committed: bool, receipts: set<Octets16>)

  function ViewOf(st: State, img: Image): View {
    View(st.status != Absent || img.complete.Some?,
         if img.complete.Some? then img.complete.value else img.PartOctets(),
         img.complete.Some?,
         st.receipts)
  }

  // ---- Invariants ----

  ghost predicate Older(slot: Slot, st: State) {
    slot.Missing? || (slot.Holds? && slot.state.descriptor == st.descriptor && slot.state.sequence < st.sequence)
  }

  /** `st` is the newest durable state: unsaved and fresh, or held by its own slot beside an older one. */
  ghost predicate Backed(st: State, img: Image) {
    if st.sequence == 0 then
      st == Fresh(st.descriptor) && img.slot0.Missing? && img.slot1.Missing?
    else
      img.SlotAt(st.sequence % 2) == Holds(st) && Older(img.SlotAt(1 - st.sequence % 2), st)
  }

  /** The files are ones from which `st` can be rebuilt without an error. */
  ghost predicate Tolerates(sha: Hash, st: State, img: Image) {
    && st.descriptor.Valid()
    && if img.complete.Some? then
         Verify(sha, st.descriptor, img.complete.value)
       else
         && st.status != Committed
         && |img.PartOctets()| <= st.descriptor.encodedLength
         && (st.status == Absent ==> img.PartOctets() == [])
         && (st.status == Verified && |img.PartOctets()| == st.descriptor.encodedLength ==>
               Verify(sha, st.descriptor, img.PartOctets()))
  }

  /** The status and prefix of a live store say exactly what the files hold. */
  ghost predicate Exact(st: State, img: Image) {
    if img.complete.Some? then
      st.status == Committed && st.prefix == st.descriptor.encodedLength
    else
      && st.prefix == |img.PartOctets()|
      && (st.status == Offered ==> st.prefix == 0)
      && (st.status == Partial ==> 0 < st.prefix < st.descriptor.encodedLength)
      && (st.status == CompleteUnverified || st.status == Verified ==> st.prefix == st.descriptor.encodedLength)
  }

  /** Invariant of a store object in use. */
  ghost predicate Live(sha: Hash, st: State, img: Image) {
    Backed(st, img) && Tolerates(sha, st, img) && Exact(st, img)
  }

  /** Invariant of a disk nobody has open, crash debris included. */
  ghost predicate Recoverable(sha: Hash, d: Descriptor, img: Image) {
    && Newest(img, d).Ok?
    && var st := Newest(img, d).value;
       st.descriptor == d && Backed(st, img) && Tolerates(sha, st, img)
  }

  function ViewAt(d: Descriptor, img: Image): View
    requires Newest(img, d).Ok?
  {
    ViewOf(Newest(img, d).value, img)
  }

  /** `after` adds to `before` some first octets of the part of `payload` that lies beyond it. */
  ghost predicate Appended(length: nat, offset: nat, payload: Bytes, before: Bytes, after: Bytes) {
    && offset <= |before| < offset + |payload| <= length
    && payload[..|before| - offset] == before[offset..]
    && before <= after <= before + payload[|before| - offset..]
  }

  /** The views one call may leave, whether it completes or is cut anywhere. */
  ghost predicate Allowed(sha: Hash, d: Descriptor, call: Call, before: View, after: View) {
    after == before ||
    match call
    case AcceptDescriptorCall(_) => after == before.(accepted := true)
    case AcceptDataCall(_, offset, payload) =>
      && !before.committed
      && after == before.(content := after.content)
      && Appended(d.encodedLength, offset, payload, before.content, after.content)
    case VerifyCall(validator) =>
      && !before.committed
      && (d.encodedLength != 0 ==> before.accepted)
      && after.accepted
      && (if Verify(sha, d, before.content) && validator(before.content, d) then
            after == before.(accepted := true)
          else
            after == before.(accepted := after.accepted, content := []))
    case CommitCall => Verify(sha, d, before.content) && after == before.(committed := true)
    case ReceiptCall(receipt) => after == before.(receipts := before.receipts + {receipt})
  }

  // ---- Saving ----

  lemma BackedIsNewest(st: State, img: Image)
    requires Backed(st, img)
    ensures Newest(img, st.descriptor) == Ok(st)
  {
  }

  ghost predicate SameSlots(a: Image, b: Image) {
    a.slot0 == b.slot0 && a.slot1 == b.slot1
  }

  lemma BackedBySlots(st: State, a: Image, b: Image)
    requires Backed(st, a) && SameSlots(b, a)
    ensures Backed(st, b)
  {
  }

  /** A save exposes the old state twice over and then the new one; both stay backed throughout. */
  lemma SaveExposes(st: State, changed: State, img: Image)
    requires Backed(st, img) && st.sequence < U64_MAX
    requires changed.descriptor == st.descriptor && changed.sequence == st.sequence
    ensures var saved := Save(changed, img);
            && saved.state == changed.(sequence := st.sequence + 1)
            && saved.result.Ok?
            && |saved.trace| == 2
            && Backed(st, saved.trace[0])
            && Backed(saved.state, saved.trace[1])
            && (forall k | 0 <= k < 2 :: saved.trace[k] == img.(slot0 := saved.trace[k].slot0, slot1 := saved.trace[k].slot1))
  {
    var i := (st.sequence + 1) % 2;
    assert i == if st.sequence % 2 == 0 then 1 else 0;
  }

  lemma BackedIsRecoverable(sha: Hash, st: State, img: Image, files: Image)
    requires Backed(st, img) && Tolerates(sha, st, files)
    requires img.part == files.part && img.complete == files.complete
    ensures Recoverable(sha, st.descriptor, img) && ViewAt(st.descriptor, img) == ViewOf(st, files)
    ensures Tolerates(sha, st, img) && ViewOf(st, img) == ViewOf(st, files)
    ensures Newest(img, st.descriptor) == Ok(st)
  {
    BackedIsNewest(st, img);
  }

  /** A save alone: the first exposed image still shows the old state, the second the new one. */
  lemma SavedIsRecoverable(sha: Hash, st: State, changed: State, img: Image)
    requires Backed(st, img) && st.sequence < U64_MAX
    requires changed.descriptor == st.descriptor && changed.sequence == st.sequence
    requires Tolerates(sha, st, img) && Tolerates(sha, changed, img)
    ensures var saved := Save(changed, img);
            && saved.result.Ok? && saved.state == changed.(sequence := st.sequence + 1)
            && |saved.trace| == 2
            && Recoverable(sha, st.descriptor, saved.trace[0]) && Recoverable(sha, st.descriptor, saved.trace[1])
            && ViewAt(st.descriptor, saved.trace[0]) == ViewOf(st, img)
            && ViewAt(st.descriptor, saved.trace[1]) == ViewOf(saved.state, saved.trace[1]) == ViewOf(changed, img)
            && Newest(saved.trace[0], st.descriptor) == Ok(st) && Newest(saved.trace[1], st.descriptor) == Ok(saved.state)
            && Backed(saved.state, saved.trace[1]) && Tolerates(sha, saved.state, saved.trace[1])
            && (forall k | 0 <= k < 2 :: saved.trace[k] == img.(slot0 := saved.trace[k].slot0, slot1 := saved.trace[k].slot1))
  {
    SaveExposes(st, changed, img);
    var saved := Save(changed, img);
    BackedIsRecoverable(sha, st, saved.trace[0], img);
    assert Tolerates(sha, saved.state, img) && ViewOf(saved.state, img) == ViewOf(changed, img);
    BackedIsRecoverable(sha, saved.state, saved.trace[1], img);
  }

  // ---- One call, cut anywhere ----

  /** Octets leave the durable prefix only into quarantine, all together. */
  ghost predicate Preserved(before: Bytes, after: Bytes, quarantinedBefore: seq<Bytes>, quarantinedAfter: seq<Bytes>) {
    || (before <= after && quarantinedAfter == quarantinedBefore)
    || (after == [] && quarantinedAfter == quarantinedBefore + [before])
  }

  /** Seen through `newest` and the image `cut`, the disk shows something the call may leave. */
  ghost predicate Fits(sha: Hash, call: Call, st: State, img: Image, newest: State, cut: Image) {
    && Allowed(sha, st.descriptor, call, ViewOf(st, img), ViewOf(newest, cut))
    && Preserved(ViewOf(st, img).content, ViewOf(newest, cut).content, img.quarantined, cut.quarantined)
  }

  ghost predicate SoundCut(sha: Hash, call: Call, st: State, img: Image, cut: Image) {
    && Recoverable(sha, st.descriptor, cut)
    && Newest(cut, st.descriptor).value.sequence <= st.sequence + 1
    && Fits(sha, call, st, img, Newest(cut, st.descriptor).value, cut)
  }

  ghost predicate Sound<T>(sha: Hash, call: Call, st: State, img: Image, e: Effect<T>) {
    && (forall k | 0 <= k < |e.trace| :: SoundCut(sha, call, st, img, e.trace[k]))
    && (if e.result.Err? && e.result.error == SequenceExhausted then st.sequence == U64_MAX
        else Live(sha, e.state, After(img, e.trace)))
  }

  lemma NothingDoneSound<T>(sha: Hash, call: Call, st: State, img: Image, e: Effect<T>)
    requires Live(sha, st, img)
    requires e.trace == [] && e.state == st && !(e.result.Err? && e.result.error == SequenceExhausted)
    ensures Sound(sha, call, st, img, e)
  {
  }

  lemma CutFits(sha: Hash, call: Call, st: State, img: Image, newest: State, files: Image, cut: Image)
    requires Recoverable(sha, st.descriptor, cut) && ViewAt(st.descriptor, cut) == ViewOf(newest, files)
    requires Fits(sha, call, st, img, newest, files) && cut.quarantined == files.quarantined
    requires Newest(cut, st.descriptor).value.sequence <= st.sequence + 1
    ensures SoundCut(sha, call, st, img, cut)
  {
  }

  lemma NothingFits(sha: Hash, call: Call, st: State, img: Image)
    ensures Fits(sha, call, st, img, st, img)
  {
  }

  lemma FitsByView(sha: Hash, call: Call, st: State, img: Image, newest: State, other: State, cut: Image)
    requires Fits(sha, call, st, img, newest, cut) && ViewOf(other, cut) == ViewOf(newest, cut)
    ensures Fits(sha, call, st, img, other, cut)
  {
  }

  /** Durable actions on the files, each allowed by the call, and then a save of an allowed state. */
  lemma SaveAfterSound<T>(sha: Hash, call: Call, st: State, changed: State, img: Image, done: seq<Image>, reply: T)
    requires Live(sha, st, img)
    requires changed.descriptor == st.descriptor && changed.sequence == st.sequence
    requires forall k | 0 <= k < |done| :: SameSlots(done[k], img) && Tolerates(sha, st, done[k]) && Fits(sha, call, st, img, st, done[k])
    requires Tolerates(sha, changed, After(img, done)) && Exact(changed, After(img, done))
    requires Fits(sha, call, st, img, changed, After(img, done))
    ensures var e := SaveAfter(changed, img, done, reply);
            && Sound(sha, call, st, img, e)
            && (e.result.Ok? ==> ViewOf(e.state, After(img, e.trace)) == ViewOf(changed, After(img, done)))
            && (e.result.Ok? ==> e.result.value == reply && e.state.status == changed.status && e.state.descriptor == st.descriptor)
            && (e.result.Err? ==> e.result.error == SequenceExhausted)
  {
    hide Fits, Tolerates, Backed, ViewOf, Newest;
    NothingFits(sha, call, st, img);
    var mid := After(img, done);
    var e := SaveAfter(changed, img, done, reply);
    BackedBySlots(st, img, mid);
    assert Backed(st, mid) && Tolerates(sha, st, mid) && Fits(sha, call, st, img, st, mid);
    forall k | 0 <= k < |done|
      ensures SoundCut(sha, call, st, img, done[k])
    {
      BackedBySlots(st, img, done[k]);
      BackedIsRecoverable(sha, st, done[k], done[k]);
      CutFits(sha, call, st, img, st, done[k], done[k]);
    }
    if st.sequence < U64_MAX {
      SavedIsRecoverable(sha, st, changed, mid);
      var saved := Save(changed, mid);
      CutFits(sha, call, st, img, st, mid, saved.trace[0]);
      CutFits(sha, call, st, img, changed, mid, saved.trace[1]);
      assert e.trace == done + [saved.trace[0], saved.trace[1]];
    }
  }

  lemma AcceptDescriptorSound(sha: Hash, st: State, img: Image, d: Descriptor)
    requires Live(sha, st, img)
    ensures Sound(sha, AcceptDescriptorCall(d), st, img, AcceptDescriptor(st, img, d))
  {
    if d == st.descriptor && st.status == Absent {
      var status := if d.encodedLength == 0 then CompleteUnverified else Offered;
      SaveAfterSound(sha, AcceptDescriptorCall(d), st, st.(status := status), img, [], true);
    }
  }

  lemma ReceiptSound(sha: Hash, st: State, img: Image, id: Octets16)
    requires Live(sha, st, img)
    ensures Sound(sha, ReceiptCall(id), st, img, CommitReceipt(st, img, id))
  {
    if id !in st.receipts {
      SaveAfterSound(sha, ReceiptCall(id), st, st.(receipts := st.receipts + {id}), img, [], true);
    }
  }

  lemma AppendTraceShows(img: Image, suffix: Bytes)
    ensures var trace := AppendTrace(img, suffix);
            && |trace| == |suffix| + 1
            && (forall k | 0 <= k < |trace| :: trace[k] == img.(part := Some(img.PartOctets() + suffix[..k])))
            && After(img, trace) == img.(part := Some(img.PartOctets() + suffix))
  {
    assert suffix[..|suffix|] == suffix;
  }

  lemma PrefixAppended(length: nat, offset: nat, payload: Bytes, before: Bytes, k: nat)
    requires offset <= |before| < offset + |payload| <= length
    requires payload[..|before| - offset] == before[offset..]
    requires k <= offset + |payload| - |before|
    ensures var after := before + payload[|before| - offset..][..k];
            Appended(length, offset, payload, before, after) && |after| <= length
  {
    var suffix := payload[|before| - offset..];
    assert suffix == suffix[..k] + suffix[k..];
  }

  lemma AppendTraceAppends(length: nat, offset: nat, payload: Bytes, img: Image)
    requires offset <= |img.PartOctets()| < offset + |payload| <= length
    requires payload[..|img.PartOctets()| - offset] == img.PartOctets()[offset..]
    ensures var done := AppendTrace(img, payload[|img.PartOctets()| - offset..]);
            && |done| == offset + |payload| - |img.PartOctets()| + 1
            && (forall k | 0 <= k < |done| ::
                  && done[k] == img.(part := Some(done[k].PartOctets()))
                  && |done[k].PartOctets()| == |img.PartOctets()| + k
                  && Appended(length, offset, payload, img.PartOctets(), done[k].PartOctets()))
            && done[|done| - 1].PartOctets() == img.PartOctets() + payload[|img.PartOctets()| - offset..]
  {
    var suffix := payload[|img.PartOctets()| - offset..];
    AppendTraceShows(img, suffix);
    var done := AppendTrace(img, suffix);
    forall k | 0 <= k < |done|
      ensures |done[k].PartOctets()| == |img.PartOctets()| + k
      ensures Appended(length, offset, payload, img.PartOctets(), done[k].PartOctets())
    {
      PrefixAppended(length, offset, payload, img.PartOctets(), k);
    }
  }

  /** Every prefix of a torn append keeps the durable prefix and adds only octets of the payload. */
  lemma AppendExposes(sha: Hash, st: State, img: Image, id: Octets32, offset: u64, payload: Bytes, content: Bytes)
    requires Live(sha, st, img) && img.complete.None? && st.status != Absent
    requires Appended(st.descriptor.encodedLength, offset, payload, img.PartOctets(), content) && |content| <= st.descriptor.encodedLength
    ensures var cut := img.(part := Some(content));
            && Fits(sha, AcceptDataCall(id, offset, payload), st, img, st, cut)
            && SameSlots(cut, img) && Tolerates(sha, st, cut)
  {
    assert ViewOf(st, img.(part := Some(content))) == ViewOf(st, img).(content := content);
  }

  /** One append whose exposed images are `done`, and the save behind it. */
  lemma AppendSound(sha: Hash, st: State, img: Image, id: Octets32, offset: u64, payload: Bytes, done: seq<Image>)
    requires Live(sha, st, img) && img.complete.None? && st.status != Absent
    requires offset <= st.prefix < offset + |payload| <= st.descriptor.encodedLength
    requires |done| == offset + |payload| - st.prefix + 1
    requires forall k | 0 <= k < |done| ::
               && done[k] == img.(part := Some(done[k].PartOctets()))
               && |done[k].PartOctets()| == st.prefix + k
               && Appended(st.descriptor.encodedLength, offset, payload, img.PartOctets(), done[k].PartOctets())
    ensures var overlap := st.prefix - offset;
            var e := AfterAppend(st, img, done, |payload| - overlap, overlap);
            && Sound(sha, AcceptDataCall(id, offset, payload), st, img, e)
            && (e.result.Ok? ==>
                  && e.result.value == Accepted(|payload| - overlap, overlap)
                  && ViewOf(e.state, After(img, e.trace)) == ViewOf(st, img).(content := done[|done| - 1].PartOctets()))
  {
    hide Appended, Fits, Newest, Backed;
    var call := AcceptDataCall(id, offset, payload);
    forall k | 0 <= k < |done|
      ensures SameSlots(done[k], img) && Tolerates(sha, st, done[k]) && Fits(sha, call, st, img, st, done[k])
    {
      AppendExposes(sha, st, img, id, offset, payload, done[k].PartOctets());
    }
    var prefix := offset + |payload|;
    var changed := st.(prefix := prefix, status := if prefix == st.descriptor.encodedLength then CompleteUnverified else Partial);
    var last := done[|done| - 1];
    assert ViewOf(changed, last) == ViewOf(st, last);
    assert AfterAppend(st, img, done, prefix - st.prefix, st.prefix - offset)
        == SaveAfter(changed, img, done, Accepted(prefix - st.prefix, st.prefix - offset));
    FitsByView(sha, call, st, img, st, changed, last);
    SaveAfterSound(sha, call, st, changed, img, done, Accepted(prefix - st.prefix, st.prefix - offset));
  }

  /** The replayed part of a payload agrees with the durable prefix, so the payload lies on it or extends it. */
  lemma OverlapAgrees(st: State, img: Image, offset: nat, payload: Bytes)
    requires img.complete.None? && st.prefix == |img.PartOctets()| && offset <= st.prefix < offset + |payload|
    requires st.prefix > offset ==> VerifyDuplicate(img.part, offset, payload[..st.prefix - offset]).Pass?
    ensures payload[..st.prefix - offset] == img.PartOctets()[offset..]
    ensures (img.PartOctets() + payload[st.prefix - offset..])[offset..offset + |payload|] == payload
  {
    var overlap := st.prefix - offset;
    if overlap > 0 {
      assert img.PartOctets()[offset..offset + overlap] == img.PartOctets()[offset..];
    }
    var content := img.PartOctets() + payload[overlap..];
    assert content[offset..offset + |payload|] == img.PartOctets()[offset..] + payload[overlap..];
    assert payload[..overlap] + payload[overlap..] == payload;
  }

  /** A reply of success means that the payload lies in the durable prefix at its offset, octet for octet. */
  ghost predicate Durable(view: View, offset: nat, payload: Bytes) {
    offset + |payload| <= |view.content| && view.content[offset..offset + |payload|] == payload
  }

  lemma ReplayIsDurable(st: State, img: Image, id: Octets32, offset: u64, payload: Bytes)
    requires img.complete.Some? <==> st.status == Committed
    requires img.complete.None? ==> st.prefix == |img.PartOctets()|
    requires AcceptData(st, img, id, offset, payload).result.Ok?
    requires img.complete.None? ==> offset + |payload| <= st.prefix
    ensures AcceptData(st, img, id, offset, payload) == Effect([], st, Ok(Accepted(0, |payload|)))
    ensures Durable(ViewOf(st, img), offset, payload)
  {
    assert payload[..|payload|] == payload;
  }

  lemma FreshDataIsAppended(st: State, img: Image, id: Octets32, offset: u64, payload: Bytes)
    requires img.complete.None? && st.status != Committed && st.prefix == |img.PartOctets()|
    requires offset <= st.prefix < offset + |payload|
    ensures var e := AcceptData(st, img, id, offset, payload);
            || (e.trace == [] && e.state == st && e.result.Err? && e.result.error != SequenceExhausted)
            || (&& e == AfterAppend(st, img, AppendTrace(img, payload[st.prefix - offset..]), offset + |payload| - st.prefix, st.prefix - offset)
                && st.status != Absent
                && offset + |payload| <= st.descriptor.encodedLength
                && (st.prefix > offset ==> VerifyDuplicate(img.part, offset, payload[..st.prefix - offset]).Pass?))
  {
  }

  lemma FreshDataSound(sha: Hash, st: State, img: Image, id: Octets32, offset: u64, payload: Bytes, done: seq<Image>)
    requires Live(sha, st, img) && img.complete.None? && st.status != Absent
    requires offset <= st.prefix < offset + |payload| <= st.descriptor.encodedLength
    requires st.prefix > offset ==> VerifyDuplicate(img.part, offset, payload[..st.prefix - offset]).Pass?
    requires done == AppendTrace(img, payload[st.prefix - offset..])
    ensures var e := AfterAppend(st, img, done, offset + |payload| - st.prefix, st.prefix - offset);
            && Sound(sha, AcceptDataCall(id, offset, payload), st, img, e)
            && (e.result.Ok? ==>
                  && e.result.value == Accepted(offset + |payload| - st.prefix, st.prefix - offset)
                  && |ViewOf(e.state, After(img, e.trace)).content| == offset + |payload|
                  && Durable(ViewOf(e.state, After(img, e.trace)), offset, payload))
  {
    hide Sound, AfterAppend, AppendTrace, Appended, Backed, Verify;
    OverlapAgrees(st, img, offset, payload);
    AppendTraceAppends(st.descriptor.encodedLength, offset, payload, img);
    var content := img.PartOctets() + payload[st.prefix - offset..];
    assert |content| == offset + |payload| && content[offset..offset + |payload|] == payload;
    AppendSound(sha, st, img, id, offset, payload, done);
    assert done[|done| - 1].PartOctets() == content;
  }

  lemma AcceptDataSound(sha: Hash, st: State, img: Image, id: Octets32, offset: u64, payload: Bytes)
    requires Live(sha, st, img)
    ensures var e := AcceptData(st, img, id, offset, payload);
            && Sound(sha, AcceptDataCall(id, offset, payload), st, img, e)
            && (e.result.Ok? ==>
                  && e.result.value.acceptedOctets + e.result.value.duplicateOctets == |payload|
                  && |ViewOf(e.state, After(img, e.trace)).content| == |ViewOf(st, img).content| + e.result.value.acceptedOctets
                  && Durable(ViewOf(e.state, After(img, e.trace)), offset, payload))
  {
    var e := AcceptData(st, img, id, offset, payload);
    if img.complete.None? && offset <= st.prefix < offset + |payload| {
      FreshDataIsAppended(st, img, id, offset, payload);
      if e.result.Err? && e.result.error != SequenceExhausted && e.trace == [] && e.state == st {
        NothingDoneSound(sha, AcceptDataCall(id, offset, payload), st, img, e);
      } else {
        var done := AppendTrace(img, payload[st.prefix - offset..]);
        assert e == AfterAppend(st, img, done, offset + |payload| - st.prefix, st.prefix - offset);
        FreshDataSound(sha, st, img, id, offset, payload, done);
      }
    } else {
      NothingDoneSound(sha, AcceptDataCall(id, offset, payload), st, img, e);
      if e.result.Ok? {
        ReplayIsDurable(st, img, id, offset, payload);
      }
    }
  }

  lemma QuarantineSound(sha: Hash, validator: Validator, st: State, img: Image)
    requires Live(sha, st, img) && img.complete.None?
    requires st.prefix == st.descriptor.encodedLength && (st.descriptor.encodedLength != 0 ==> img.part.Some?)
    requires !(Verify(sha, st.descriptor, img.PartOctets()) && validator(img.PartOctets(), st.descriptor))
    ensures var e := Quarantine(st, img);
            && Sound(sha, VerifyCall(validator), st, img, e)
            && (e.result.Ok? ==> ViewOf(e.state, After(img, e.trace)).content == [])
            && (e.result.Err? ==> e.result.error == SequenceExhausted)
  {
    var done := if img.part.Some? then QuarantineTrace(img) else [];
    SaveAfterSound(sha, VerifyCall(validator), st, st.(status := Offered, prefix := 0), img, done, ());
  }

  lemma VerifySound(sha: Hash, validator: Validator, st: State, img: Image)
    requires Live(sha, st, img)
    ensures var e := VerifyStaged(sha, validator, st, img);
            && Sound(sha, VerifyCall(validator), st, img, e)
            && (e.result == Ok(true) ==> Verify(sha, st.descriptor, ViewOf(e.state, After(img, e.trace)).content))
            && (e.result == Err(IntegrityOrDecode) ==> ViewOf(e.state, After(img, e.trace)).content == [])
            && (e.result == Ok(false) <==> img.complete.None? && st.prefix < st.descriptor.encodedLength)
  {
    var e := VerifyStaged(sha, validator, st, img);
    if img.complete.Some? || st.prefix != st.descriptor.encodedLength || (img.part.None? && st.descriptor.encodedLength != 0) {
      NothingDoneSound(sha, VerifyCall(validator), st, img, e);
    } else if Verify(sha, st.descriptor, img.PartOctets()) && validator(img.PartOctets(), st.descriptor) {
      SaveAfterSound(sha, VerifyCall(validator), st, st.(status := Verified), img, [], true);
    } else {
      QuarantineSound(sha, validator, st, img);
    }
  }

  lemma PromoteExposes(sha: Hash, st: State, img: Image)
    requires Live(sha, st, img) && st.status == Verified
    ensures var created := if img.part.None? then CreatePartTrace(img) else [];
            var done := created + PromoteTrace(After(img, created));
            && (forall k | 0 <= k < |done| ::
                  SameSlots(done[k], img) && Tolerates(sha, st, done[k]) && Fits(sha, CommitCall, st, img, st, done[k]))
            && After(img, done).complete == Some(img.PartOctets())
            && After(img, done).quarantined == img.quarantined
  {
    var created := if img.part.None? then CreatePartTrace(img) else [];
    assert After(img, created).PartOctets() == img.PartOctets();
    assert Verify(sha, st.descriptor, img.PartOctets());
  }

  lemma CommitSound(sha: Hash, st: State, img: Image)
    requires Live(sha, st, img)
    ensures var e := CommitVerified(sha, st, img);
            && Sound(sha, CommitCall, st, img, e)
            && (e.result == Ok(true) ==>
                  && e.state.status == Committed
                  && ReadComplete(sha, e.state, After(img, e.trace)) == Ok(ViewOf(st, img).content))
            && (e.result == Ok(false) <==> st.status != Committed && st.status != Verified)
  {
    var e := CommitVerified(sha, st, img);
    if st.status == Verified {
      PromoteExposes(sha, st, img);
      var created := if img.part.None? then CreatePartTrace(img) else [];
      var done := created + PromoteTrace(After(img, created));
      SaveAfterSound(sha, CommitCall, st, st.(status := Committed, prefix := st.descriptor.encodedLength), img, done, true);
    } else {
      NothingDoneSound(sha, CommitCall, st, img, e);
    }
  }

  /** Every call, cut anywhere, leaves a recoverable disk showing an allowed view; completed, it leaves a live store. */
  lemma CallSound(sha: Hash, st: State, img: Image, call: Call)
    requires Live(sha, st, img)
    ensures Sound(sha, call, st, img, Perform(sha, st, img, call))
  {
    match call
    case AcceptDescriptorCall(d) => AcceptDescriptorSound(sha, st, img, d);
    case AcceptDataCall(id, offset, payload) => AcceptDataSound(sha, st, img, id, offset, payload);
    case VerifyCall(validator) => VerifySound(sha, validator, st, img);
    case CommitCall => CommitSound(sha, st, img);
    case ReceiptCall(receipt) => ReceiptSound(sha, st, img, receipt);
  }

  // ---- Reopening ----

  lemma RebuiltIsExact(sha: Hash, st: State, img: Image)
    requires Tolerates(sha, st, img)
    ensures var r := Rebuilt(sha, st, img);
            && r.Ok?
            && r.value.descriptor == st.descriptor && r.value.sequence == st.sequence
            && Tolerates(sha, r.value, img) && Exact(r.value, img)
            && ViewOf(r.value, img) == ViewOf(st, img)
  {
  }

  /** Opening any recoverable disk succeeds unless the sequence is exhausted, keeps the view, and can itself be cut anywhere. */
  lemma OpenSound(sha: Hash, d: Descriptor, img: Image)
    requires Recoverable(sha, d, img)
    ensures var e := Open(sha, img, d);
            && (forall k | 0 <= k < |e.trace| ::
                  && Recoverable(sha, d, e.trace[k])
                  && ViewAt(d, e.trace[k]) == ViewAt(d, img)
                  && Newest(e.trace[k], d).value.sequence <= Newest(img, d).value.sequence + 1
                  && e.trace[k].quarantined == img.quarantined)
            && (e.result.Ok? ==> Live(sha, e.state, After(img, e.trace)) && ViewOf(e.state, After(img, e.trace)) == ViewAt(d, img))
            && (e.result.Err? ==> e.result.error == SequenceExhausted && Newest(img, d).value.sequence == U64_MAX)
  {
    var st := Newest(img, d).value;
    BackedIsNewest(st, img);
    RebuiltIsExact(sha, st, img);
    var rebuilt := Rebuilt(sha, st, img).value;
    if rebuilt != st && st.sequence < U64_MAX {
      SavedIsRecoverable(sha, st, rebuilt, img);
      var saved := Save(rebuilt, img);
      assert Open(sha, img, d) == Effect([saved.trace[0], saved.trace[1]], saved.state, Ok(()));
    }
  }
}
