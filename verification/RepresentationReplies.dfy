/** What every call of the representation store answers, told by what the disk durably holds. */
module RepresentationReplies {
  import opened Wrappers
  import opened Octets
  import opened Representation
  import opened RepresentationSpec
  import opened RepresentationSafety

  /** Nothing was written, and nothing changed in memory. */
  ghost predicate Nothing<T>(st: State, e: Effect<T>) {
    e.trace == [] && e.state == st
  }

  /** A save was due and the sequence had run out. */
  ghost predicate RanOut<T>(st: State, e: Effect<T>) {
    st.sequence == U64_MAX && e.result == Err(SequenceExhausted)
  }

  /** Where the payload lies on octets that are held, it repeats them. */
  ghost predicate Agrees(content: Bytes, offset: nat, payload: Bytes) {
    forall i | 0 <= i < |payload| && offset + i < |content| :: content[offset + i] == payload[i]
  }

  /** The answer to data, by what is held: who it is for, whether it fits, whether it leaves a gap, whether it contradicts, and what it adds. */
  ghost predicate DataAnswered(st: State, v: View, id: Octets32, offset: u64, payload: Bytes, e: Effect<Accepted>, after: View) {
    var held, end := |v.content|, offset + |payload|;
    if id != st.descriptor.representationId then
      Nothing(st, e) && e.result == Err(IdentityConflict)
    else if payload == [] then
      Nothing(st, e) && e.result == Err(EmptyData)
    else if !v.accepted then
      Nothing(st, e) && e.result == Err(DescriptorNotAccepted)
    else if end > st.descriptor.encodedLength then
      Nothing(st, e) && e.result == Err(if end > U64_MAX then Length else DataExceedsDescriptor)
    else if offset > held then
      Nothing(st, e) && e.result == Err(NonContiguous)
    else if !Agrees(v.content, offset, payload) then
      Nothing(st, e) && e.result == Err(ConflictingReplay)
    else if end <= held then
      Nothing(st, e) && e.result == Ok(Accepted(0, |payload|))
    else
      || RanOut(st, e)
      || (e.result == Ok(Accepted(end - held, held - offset)) && after == v.(content := v.content + payload[held - offset..]))
  }

  lemma DuplicateMeans(file: Option<Bytes>, offset: nat, payload: Bytes, n: nat)
    requires n <= |payload| && file.Some? && offset + n <= |file.value|
    requires n == |payload| || offset + n == |file.value|
    ensures VerifyDuplicate(file, offset, payload[..n]) == if Agrees(file.value, offset, payload) then Pass else Fail(ConflictingReplay)
  {
    var slice := file.value[offset..offset + n];
    if slice == payload[..n] {
      forall i | 0 <= i < |payload| && offset + i < |file.value|
        ensures file.value[offset + i] == payload[i]
      {
        assert slice[i] == payload[..n][i];
      }
    } else {
      var i :| 0 <= i < n && slice[i] != payload[..n][i];
      assert file.value[offset + i] != payload[i];
    }
  }

  lemma DataReply(sha: Hash, st: State, img: Image, id: Octets32, offset: u64, payload: Bytes)
    requires Live(sha, st, img)
    ensures var e := AcceptData(st, img, id, offset, payload);
            DataAnswered(st, ViewOf(st, img), id, offset, payload, e, ViewOf(e.state, After(img, e.trace)))
  {
    hide Agrees, Backed;
    var v, held, end := ViewOf(st, img), |ViewOf(st, img).content|, offset + |payload|;
    assert st.prefix == held;
    if id == st.descriptor.representationId && payload != [] && v.accepted && end <= st.descriptor.encodedLength {
      if st.status == Committed {
        assert payload[..|payload|] == payload;
        DuplicateMeans(img.complete, offset, payload, |payload|);
      } else if offset <= held {
        OverlapReply(sha, st, img, id, offset, payload);
      }
    }
  }

  lemma NothingBeyond(content: Bytes, offset: nat, payload: Bytes)
    ensures offset >= |content| ==> Agrees(content, offset, payload)
  {
  }

  /** The part of the answer for uncommitted octets that the data touches. */
  lemma OverlapReply(sha: Hash, st: State, img: Image, id: Octets32, offset: u64, payload: Bytes)
    requires Live(sha, st, img) && st.status != Committed && st.status != Absent
    requires id == st.descriptor.representationId && payload != [] && offset <= st.prefix && offset + |payload| <= st.descriptor.encodedLength
    ensures var e := AcceptData(st, img, id, offset, payload);
            DataAnswered(st, ViewOf(st, img), id, offset, payload, e, ViewOf(e.state, After(img, e.trace)))
  {
    hide Backed, Verify, Agrees, Descriptor.Valid, AppendTrace, AfterAppend;
    NothingBeyond(img.PartOctets(), offset, payload);
    var overlap := Min(|payload|, st.prefix - offset);
    if overlap > 0 {
      DuplicateMeans(img.part, offset, payload, overlap);
    }
    if overlap < |payload| && Agrees(img.PartOctets(), offset, payload) {
      var suffix := payload[overlap..];
      AppendTraceShows(img, suffix);
      var done := AppendTrace(img, suffix);
      assert AcceptData(st, img, id, offset, payload) == AfterAppend(st, img, done, |suffix|, overlap);
      AppendedShows(st, img, done, suffix, overlap);
    }
  }

  lemma AppendedShows(st: State, img: Image, done: seq<Image>, suffix: Bytes, overlap: nat)
    requires st.status != Committed && st.status != Absent && img.complete.None?
    requires st.prefix + |suffix| <= st.descriptor.encodedLength
    requires done != [] && After(img, done) == img.(part := Some(img.PartOctets() + suffix))
    ensures var e := AfterAppend(st, img, done, |suffix|, overlap);
            if st.sequence == U64_MAX then
              RanOut(st, e)
            else
              && e.result == Ok(Accepted(|suffix|, overlap))
              && ViewOf(e.state, After(img, e.trace)) == ViewOf(st, img).(content := img.PartOctets() + suffix)
  {
    var e := AfterAppend(st, img, done, |suffix|, overlap);
    assert e.trace[|e.trace| - 1] == After(img, e.trace);
  }

  /** Committed or complete and passing octets verify; incomplete ones wait; complete octets that do not pass leave the prefix. */
  lemma VerifyReply(sha: Hash, validator: Validator, st: State, img: Image)
    requires Live(sha, st, img)
    ensures var e, v := VerifyStaged(sha, validator, st, img), ViewOf(st, img);
            var after := ViewOf(e.state, After(img, e.trace));
            if v.committed then
              Nothing(st, e) && e.result == Ok(true)
            else if |v.content| < st.descriptor.encodedLength then
              Nothing(st, e) && e.result == Ok(false)
            else if Verify(sha, st.descriptor, v.content) && validator(v.content, st.descriptor) then
              RanOut(st, e) || (e.result == Ok(true) && e.state.status == Verified && after == v.(accepted := true))
            else
              || RanOut(st, e)
              || (&& e.result == Err(IntegrityOrDecode) && after == v.(accepted := true, content := [])
                  && After(img, e.trace).quarantined == img.quarantined + if img.part.Some? then [v.content] else [])
  {
  }

  /** Verified octets are committed whole; committed ones stay; anything else is not committed. */
  lemma CommitReply(sha: Hash, st: State, img: Image)
    requires Live(sha, st, img)
    ensures var e, v := CommitVerified(sha, st, img), ViewOf(st, img);
            if v.committed then
              Nothing(st, e) && e.result == Ok(true)
            else if st.status != Verified then
              Nothing(st, e) && e.result == Ok(false)
            else
              RanOut(st, e) || (e.result == Ok(true) && ViewOf(e.state, After(img, e.trace)) == v.(committed := true))
  {
  }

  /** A receipt is new exactly once, and recording it changes nothing else. */
  lemma ReceiptReply(sha: Hash, st: State, img: Image, id: Octets16)
    requires Live(sha, st, img)
    ensures var e, v := CommitReceipt(st, img, id), ViewOf(st, img);
            if id in v.receipts then
              Nothing(st, e) && e.result == Ok(false)
            else
              RanOut(st, e) || (e.result == Ok(true) && ViewOf(e.state, After(img, e.trace)) == v.(receipts := v.receipts + {id}))
  {
    ReceiptSound(sha, st, img, id);
  }

  /**
   A disk opens unless it holds another descriptor, only torn slots, committed octets that are not the described ones, more octets than described, or
   octets although the descriptor was never accepted. A disk that does not open stays as it is.
   */
  lemma OpenRefuses(sha: Hash, img: Image, d: Descriptor)
    ensures var e, st, octets := Open(sha, img, d), if Newest(img, d).Ok? then Newest(img, d).value else Fresh(d), img.PartOctets();
            && (e.result.Err? ==> e.trace == [])
            && if !d.Valid() then
                 e.result == Err(InvalidDescriptor)
               else if exists i: nat :: i < 2 && img.SlotAt(i).Holds? && img.SlotAt(i).state.descriptor != d then
                 e.result == Err(IdentityConflict)
               else if !img.slot0.Holds? && !img.slot1.Holds? && (img.slot0.Torn? || img.slot1.Torn?) then
                 e.result == Err(NoRecoverableSlot)
               else if img.complete.Some? && !Verify(sha, d, img.complete.value) then
                 e.result == Err(IntegrityOrDecode)
               else if img.complete.None? && |octets| > d.encodedLength then
                 e.result == Err(DataExceedsDescriptor)
               else if img.complete.None? && st.status == Absent && octets != [] then
                 e.result == Err(DescriptorNotAccepted)
               else
                 e.result.Ok? || (e.result == Err(SequenceExhausted) && st.sequence == U64_MAX)
  {
    assert img.SlotAt(0) == img.slot0 && img.SlotAt(1) == img.slot1;
  }

  /** Of two slots that hold a state the newer counts, the second where they are equally new; without any, only untouched slots do. */
  lemma NewestCounts(img: Image, d: Descriptor)
    requires Newest(img, d).Ok?
    ensures var st := Newest(img, d).value;
            && (img.slot0.Holds? ==> img.slot0.state.sequence <= st.sequence)
            && (img.slot1.Holds? ==> img.slot1.state.sequence <= st.sequence && (img.slot1.state.sequence == st.sequence ==> st == img.slot1.state))
            && (Holds(st) in {img.slot0, img.slot1} || (st == Fresh(d) && img.slot0 == img.slot1 == Missing))
            && st.descriptor == d
  {
  }

  /** Reopening the disk of a store in use finds the store as it is and writes nothing, unless it is an empty representation that failed. */
  lemma ReopensAsItIs(sha: Hash, st: State, img: Image)
    requires Live(sha, st, img)
    ensures Open(sha, img, st.descriptor) == Effect([], st, Ok(())) <==> !(st.status == Offered && st.descriptor.encodedLength == 0)
  {
    BackedIsNewest(st, img);
  }

  /**
   Only the descriptor the store was opened for is accepted, and newly accepted only once; a reopening then finds the store as acceptance left
   it, an empty representation waiting for its verification included.
   */
  lemma DescriptorReply(sha: Hash, st: State, img: Image, d: Descriptor)
    requires Live(sha, st, img)
    ensures var e, v := AcceptDescriptor(st, img, d), ViewOf(st, img);
            if d != st.descriptor then
              Nothing(st, e) && e.result == Err(IdentityConflict)
            else if v.accepted then
              Nothing(st, e) && e.result == Ok(false)
            else
              || RanOut(st, e)
              || (&& e.result == Ok(true) && ViewOf(e.state, After(img, e.trace)) == v.(accepted := true)
                  && Open(sha, After(img, e.trace), d) == Effect([], e.state, Ok(())))
  {
    AcceptDescriptorSound(sha, st, img, d);
    var e := AcceptDescriptor(st, img, d);
    if d == st.descriptor && e.result == Ok(true) {
      ReopensAsItIs(sha, e.state, After(img, e.trace));
    }
  }
}
