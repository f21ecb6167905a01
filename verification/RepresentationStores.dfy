/** The representation store as an object over a disk, each method proved against its specification. */
module RepresentationStores {
  import opened Wrappers
  import opened Octets
  import opened Representation
  import opened RepresentationSafety
  import Spec = RepresentationSpec

  type Image = Spec.Image
  type State = Spec.State
  type Slot = Spec.Slot
  type StoreError = Spec.StoreError

  /** Slots and files; `exposed` records every image a crash could have found, in order. */
  class Disk {
    var slot0: Slot
    var slot1: Slot
    var part: Option<Bytes>
    var complete: Option<Bytes>
    var quarantined: seq<Bytes>
    ghost var exposed: seq<Image>

    constructor ()
      ensures Now() == Spec.EMPTY_DISK && exposed == []
    {
      slot0, slot1 := Spec.Missing, Spec.Missing;
      part, complete, quarantined := None, None, [];
      exposed := [];
    }

    function Now(): Image
      reads this
    {
      Spec.Image(slot0, slot1, part, complete, quarantined)
    }

    /** The disk went through `trace`. */
    twostate predicate Went(new trace: seq<Image>)
      reads this
    {
      exposed == old(exposed) + trace && Now() == Spec.After(old(Now()), trace)
    }

    method ReplaceSlot(index: nat, state: State)
      requires index < 2
      modifies this
      ensures Went(Spec.ReplaceSlotTrace(old(Now()), index, state))
    {
      if index == 0 { slot0 := Spec.Missing; } else { slot1 := Spec.Missing; }
      exposed := exposed + [Now()];
      if index == 0 { slot0 := Spec.Holds(state); } else { slot1 := Spec.Holds(state); }
      exposed := exposed + [Now()];
    }

    method AppendPart(suffix: Bytes)
      modifies this
      ensures Went(Spec.AppendTrace(old(Now()), suffix))
    {
      if part.None? {
        part := Some([]);
      }
      exposed := exposed + [Now()];
      ghost var was := old(Now());
      ghost var trace := Spec.AppendTrace(was, suffix);
      var n := 0;
      assert was.PartOctets() + suffix[..0] == was.PartOctets();
      while n < |suffix|
        invariant n <= |suffix|
        invariant Now() == was.(part := Some(was.PartOctets() + suffix[..n])) == trace[n]
        invariant exposed == old(exposed) + trace[..n + 1]
      {
        assert suffix[..n + 1] == suffix[..n] + [suffix[n]];
        part := Some(part.value + [suffix[n]]);
        assert was.PartOctets() + suffix[..n + 1] == was.PartOctets() + suffix[..n] + [suffix[n]];
        n := n + 1;
        exposed := exposed + [Now()];
      }
      assert trace[..|trace|] == trace;
    }

    method CreatePart()
      modifies this
      ensures Went(Spec.CreatePartTrace(old(Now())))
    {
      part := Some([]);
      exposed := exposed + [Now()];
    }

    method PromotePart()
      modifies this
      ensures Went(Spec.PromoteTrace(old(Now())))
    {
      complete := None;
      exposed := exposed + [Now()];
      complete, part := part, None;
      exposed := exposed + [Now()];
    }

    method QuarantinePart()
      modifies this
      ensures Went(Spec.QuarantineTrace(old(Now())))
    {
      quarantined := quarantined + [Now().PartOctets()];
      part := None;
      exposed := exposed + [Now()];
    }
  }

  class RepresentationStore {
    const sha: Hash
    const disk: Disk
    var state: State

    ghost predicate Valid()
      reads this, disk
    {
      Live(sha, state, disk.Now())
    }

    /** The object and its disk did exactly what the specified effect says, and replied with its result. */
    twostate predicate Did<T(!new)>(new e: Spec.Effect<T>, new r: Result<T, StoreError>)
      reads this, disk
    {
      r == e.result && state == e.state && disk.Went(e.trace)
    }

    /** A call is usable and crash-safe: it leaves a valid object, and every exposed image is sound. */
    twostate predicate Safe<T(!new)>(new call: Call, new r: Result<T, StoreError>)
      reads this, disk
    {
      && (r == Err(Spec.SequenceExhausted) || Valid())
      && |old(disk.exposed)| <= |disk.exposed|
      && forall k | |old(disk.exposed)| <= k < |disk.exposed| ::
           SoundCut(sha, call, old(state), old(disk.Now()), disk.exposed[k])
    }

    /** What was proved of an effect holds of the object that went through it. */
    twostate lemma DidSafe<T(!new)>(new call: Call, e: Spec.Effect<T>, new r: Result<T, StoreError>)
      requires old(Valid()) && Did(e, r) && Sound(sha, call, old(state), old(disk.Now()), e)
      ensures Safe(call, r)
    {
      forall k | |old(disk.exposed)| <= k < |disk.exposed|
        ensures SoundCut(sha, call, old(state), old(disk.Now()), disk.exposed[k])
      {
        assert disk.exposed[k] == e.trace[k - |old(disk.exposed)|];
      }
    }

    constructor (sha: Hash, disk: Disk, state: State)
      ensures this.sha == sha && this.disk == disk && this.state == state
    {
      this.sha, this.disk, this.state := sha, disk, state;
    }

    static method Open(sha: Hash, disk: Disk, d: Descriptor) returns (r: Result<RepresentationStore, StoreError>)
      modifies disk
      ensures var e := Spec.Open(sha, old(disk.Now()), d);
              && disk.Went(e.trace)
              && (r.Ok? <==> e.result.Ok?)
              && (r.Err? ==> r.error == e.result.error)
              && (r.Ok? ==> fresh(r.value) && r.value.disk == disk && r.value.sha == sha && r.value.state == e.state)
              && (r.Ok? && Recoverable(sha, d, old(disk.Now())) ==>
                    r.value.Valid() && ViewOf(e.state, disk.Now()) == ViewAt(d, old(disk.Now())))
    {
      ghost var was := disk.Now();
      if Recoverable(sha, d, was) {
        OpenSound(sha, d, was);
      }
      if !d.Valid() {
        return Err(Spec.InvalidDescriptor);
      }
      var newest := Spec.Newest(disk.Now(), d);
      if newest.Err? {
        return Err(newest.error);
      }
      var store := new RepresentationStore(sha, disk, newest.value);
      var done := store.Reconcile();
      r := if done.Err? then Err(done.error) else Ok(store);
    }

    method Save() returns (r: Result<(), StoreError>)
      modifies this, disk
      ensures Did(Spec.Save(old(state), old(disk.Now())), r)
    {
      if state.sequence == U64_MAX {
        return Err(Spec.SequenceExhausted);
      }
      var next := state.(sequence := state.sequence + 1);
      disk.ReplaceSlot(next.sequence % 2, next);
      state := next;
      r := Ok(());
    }

    method Reconcile() returns (r: Result<(), StoreError>)
      modifies this, disk
      ensures var e := Spec.Reconcile(sha, old(state), old(disk.Now()));
              r == e.result && disk.Went(e.trace) && (r.Ok? ==> state == e.state)
    {
      var before := state;
      if disk.complete.Some? {
        if !Verify(sha, state.descriptor, disk.complete.value) {
          return Err(Spec.IntegrityOrDecode);
        }
        state := state.(status := Spec.Committed, prefix := state.descriptor.encodedLength);
      } else {
        var actual := if disk.part.Some? then |disk.part.value| else 0;
        if actual > state.descriptor.encodedLength {
          return Err(Spec.DataExceedsDescriptor);
        }
        state := state.(prefix := actual);
        if state.status == Spec.Absent {
          if actual != 0 {
            return Err(Spec.DescriptorNotAccepted);
          }
        } else if actual == state.descriptor.encodedLength {
          if state.status != Spec.Verified {
            state := state.(status := Spec.CompleteUnverified);
          }
        } else if actual == 0 {
          state := state.(status := Spec.Offered);
        } else {
          state := state.(status := Spec.Partial);
        }
      }
      if state != before {
        r := Save();
      } else {
        r := Ok(());
      }
    }

    method AcceptDescriptor(d: Descriptor) returns (r: Result<bool, StoreError>)
      modifies this, disk
      ensures Did(Spec.AcceptDescriptor(old(state), old(disk.Now()), d), r)
    {
      if d != state.descriptor {
        return Err(Spec.IdentityConflict);
      }
      if state.status != Spec.Absent {
        return Ok(false);
      }
      state := state.(status := if d.encodedLength == 0 then Spec.CompleteUnverified else Spec.Offered);
      var saved := Save();
      r := if saved.Err? then Err(saved.error) else Ok(true);
    }

    method AcceptData(id: Octets32, offset: u64, payload: Bytes) returns (r: Result<Spec.Accepted, StoreError>)
      modifies this, disk
      ensures Did(Spec.AcceptData(old(state), old(disk.Now()), id, offset, payload), r)
      ensures id != old(state.descriptor.representationId) ==> r == Err(Spec.IdentityConflict) && unchanged(this) && unchanged(disk)
    {
      if id != state.descriptor.representationId {
        return Err(Spec.IdentityConflict);
      }
      if payload == [] {
        return Err(Spec.EmptyData);
      }
      if state.status == Spec.Absent {
        return Err(Spec.DescriptorNotAccepted);
      }
      var end := offset + |payload|;
      if end > U64_MAX {
        return Err(Spec.Length);
      }
      if end > state.descriptor.encodedLength {
        return Err(Spec.DataExceedsDescriptor);
      }
      if state.status == Spec.Committed {
        var check := Spec.VerifyDuplicate(disk.complete, offset, payload);
        return if check.Fail? then Err(check.error) else Ok(Spec.Accepted(0, |payload|));
      }
      if offset > state.prefix {
        return Err(Spec.NonContiguous);
      }
      var overlap := Min(|payload|, state.prefix - offset);
      if overlap > 0 {
        var check := Spec.VerifyDuplicate(disk.part, offset, payload[..overlap]);
        if check.Fail? {
          return Err(check.error);
        }
      }
      if overlap == |payload| {
        return Ok(Spec.Accepted(0, |payload|));
      }
      r := AppendSuffix(payload[overlap..], overlap);
    }

    method AppendSuffix(suffix: Bytes, overlap: nat) returns (r: Result<Spec.Accepted, StoreError>)
      requires state.prefix + |suffix| <= state.descriptor.encodedLength
      modifies this, disk
      ensures Did(Spec.AfterAppend(old(state), old(disk.Now()), Spec.AppendTrace(old(disk.Now()), suffix), |suffix|, overlap), r)
    {
      disk.AppendPart(suffix);
      var prefix := state.prefix + |suffix|;
      state := state.(prefix := prefix, status := if prefix == state.descriptor.encodedLength then Spec.CompleteUnverified else Spec.Partial);
      var saved := Save();
      r := if saved.Err? then Err(saved.error) else Ok(Spec.Accepted(|suffix|, overlap));
    }

    method ReadComplete() returns (r: Result<Bytes, StoreError>)
      ensures r == Spec.ReadComplete(sha, state, disk.Now())
      ensures Valid() ==> (r.Ok? <==> state.status == Spec.Committed)
      ensures r.Ok? ==> Verify(sha, state.descriptor, r.value)
    {
      if state.status != Spec.Committed || disk.complete.None? {
        return Err(Spec.NotComplete);
      }
      if !Verify(sha, state.descriptor, disk.complete.value) {
        return Err(Spec.IntegrityOrDecode);
      }
      r := Ok(disk.complete.value);
    }

    method Quarantine() returns (r: Result<(), StoreError>)
      modifies this, disk
      ensures Did(Spec.Quarantine(old(state), old(disk.Now())), r)
    {
      if disk.part.Some? {
        disk.QuarantinePart();
      }
      state := state.(status := Spec.Offered, prefix := 0);
      r := Save();
    }

    method VerifyStagedWith(validator: Spec.Validator) returns (r: Result<bool, StoreError>)
      modifies this, disk
      ensures Did(Spec.VerifyStaged(sha, validator, old(state), old(disk.Now())), r)
    {
      if state.status == Spec.Committed {
        var read := ReadComplete();
        return if read.Err? then Err(read.error) else Ok(true);
      }
      if state.prefix != state.descriptor.encodedLength {
        return Ok(false);
      }
      if disk.part.None? && state.descriptor.encodedLength != 0 {
        return Err(Spec.NotComplete);
      }
      var octets := if disk.part.Some? then disk.part.value else [];
      if !Verify(sha, state.descriptor, octets) || !validator(octets, state.descriptor) {
        var done := Quarantine();
        return Err(if done.Err? then done.error else Spec.IntegrityOrDecode);
      }
      state := state.(status := Spec.Verified);
      var saved := Save();
      r := if saved.Err? then Err(saved.error) else Ok(true);
    }

    method CommitVerified() returns (r: Result<bool, StoreError>)
      modifies this, disk
      ensures Did(Spec.CommitVerified(sha, old(state), old(disk.Now())), r)
    {
      if state.status == Spec.Committed {
        var read := ReadComplete();
        return if read.Err? then Err(read.error) else Ok(true);
      }
      if state.status != Spec.Verified {
        return Ok(false);
      }
      if disk.part.None? {
        disk.CreatePart();
      }
      disk.PromotePart();
      state := state.(status := Spec.Committed, prefix := state.descriptor.encodedLength);
      var saved := Save();
      r := if saved.Err? then Err(saved.error) else Ok(true);
    }

    method CommitReceipt(id: Octets16) returns (r: Result<bool, StoreError>)
      modifies this, disk
      ensures Did(Spec.CommitReceipt(old(state), old(disk.Now()), id), r)
      ensures r.Ok? ==> r.value == (id !in old(state.receipts))
    {
      if id in state.receipts {
        return Ok(false);
      }
      state := state.(receipts := state.receipts + {id});
      var saved := Save();
      r := if saved.Err? then Err(saved.error) else Ok(true);
    }
  }
}
