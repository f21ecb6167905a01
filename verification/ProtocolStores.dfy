/** The protocol store as an object over two slots, each method proved against its specification. */
module ProtocolStores {
  import opened Wrappers
  import opened Octets
  import opened Operations
  import opened Checkpoints
  import opened ProtocolSafety
  import Negotiation
  import B1Record
  import Reconciliation
  import Spec = ProtocolSpec

  type Image = Spec.Image
  type State = Spec.State
  type StoreError = Spec.StoreError

  /** Two slots written in place; `exposed` records every image a crash could have found. */
  class Slots {
    var slot0: Spec.Slot
    var slot1: Spec.Slot
    ghost var exposed: seq<Image>

    constructor ()
      ensures Now() == Spec.EMPTY_DISK && exposed == []
    {
      slot0, slot1, exposed := Spec.Missing, Spec.Missing, [];
    }

    function Now(): Image
      reads this
    {
      Spec.Image(slot0, slot1)
    }

    /** Whatever a crash could have found so far opens, unless it is the torn first save. */
    ghost predicate Survives()
      reads this
    {
      SoundSlots(Now()) && forall k | 0 <= k < |exposed| :: SoundSlots(exposed[k])
    }

    method Overwrite(index: nat, state: State)
      requires index < 2
      modifies this
      ensures var trace := Spec.OverwriteTrace(old(Now()), index, state);
              exposed == old(exposed) + trace && Now() == trace[1]
    {
      if index == 0 { slot0 := Spec.Torn; } else { slot1 := Spec.Torn; }
      exposed := exposed + [Now()];
      if index == 0 { slot0 := Spec.Holds(state); } else { slot1 := Spec.Holds(state); }
      exposed := exposed + [Now()];
    }
  }

  class ProtocolStore {
    const sha: Hash
    const slots: Slots
    var state: State

    /** The object and its slots did exactly what the effect says. */
    twostate predicate Did(new e: Spec.Effect, new r: Result<Spec.Reply, StoreError>)
      reads this, slots
    {
      && r == e.reply && state == e.state
      && slots.exposed == old(slots.exposed) + e.trace
      && slots.Now() == (if e.trace == [] then old(slots.Now()) else e.trace[|e.trace| - 1])
    }

    twostate predicate Performed(new op: Spec.Op, new r: Result<Spec.Reply, StoreError>)
      reads this, slots
    {
      Did(Spec.Perform(sha, old(state), old(slots.Now()), op), r)
    }

    /** What a reopening would find, where the slots open. */
    ghost function Durable(): State
      reads slots
    {
      if Spec.Open(slots.Now()).Ok? then Spec.Open(slots.Now()).value else Spec.INITIAL
    }

    /** Memory is the newest save but for pushed page entries, no page repeats one, and no crash so far could have lost a save. */
    ghost predicate Valid()
      reads this, slots
    {
      && Spec.Open(slots.Now()).Ok?
      && Good(World(slots.Now(), Some(state)), Durable())
      && slots.Survives()
    }

    /** Every slot image exposed meanwhile opens to the state that was durable or the one that is now, once something was saved. */
    twostate predicate ExposedOldOrNew()
      reads this, slots
    {
      && old(slots.exposed) <= slots.exposed
      && forall k | |old(slots.exposed)| <= k < |slots.exposed| ::
           || Spec.Open(slots.exposed[k]) == Ok(state)
           || (if old(Durable()).sequence > 0 then Spec.Open(slots.exposed[k]) == Ok(old(Durable())) else slots.exposed[k] == TORN_FIRST)
    }

    /**
     A call that went as specified: valid unless the sequence ran out, durable if it succeeded and had anything to save,
     refused without a trace, and touching nothing but what it is about.
     */
    twostate predicate Went(new op: Spec.Op, new r: Result<Spec.Reply, StoreError>)
      reads this, slots
    {
      && slots.Survives() && Spec.Open(slots.Now()).Ok? && ExposedOldOrNew()
      && OnlyTouches(old(state), state.(sequence := old(state.sequence)), op)
      && (r != Err(Spec.SequenceExhausted) ==> Valid())
      && (r.Err? || slots.exposed == old(slots.exposed) ==> slots.exposed == old(slots.exposed) && Durable() == old(Durable()))
      && (slots.exposed != old(slots.exposed) ==> Durable() == state && state.sequence == old(state.sequence) + 1)
    }

    twostate lemma DidSafe(new op: Spec.Op, new r: Result<Spec.Reply, StoreError>)
      requires old(Valid()) && Performed(op, r)
      ensures Went(op, r)
    {
      var durable, live, img := old(Durable()), old(state), old(slots.Now());
      var e := Spec.Perform(sha, live, img, op);
      CompletedIsDurable(sha, durable, live, img, op);
      PerformTouches(sha, live, img, op);
      forall k | |old(slots.exposed)| <= k < |slots.exposed|
        ensures SoundSlots(slots.exposed[k])
        ensures || Spec.Open(slots.exposed[k]) == Ok(state)
                || (if durable.sequence > 0 then Spec.Open(slots.exposed[k]) == Ok(durable) else slots.exposed[k] == TORN_FIRST)
      {
        assert slots.exposed[k] == e.trace[k - |old(slots.exposed)|];
        ExposedIsSound(sha, durable, live, img, op, k - |old(slots.exposed)|);
      }
    }

    constructor (sha: Hash, slots: Slots, state: State)
      ensures this.sha == sha && this.slots == slots && this.state == state
    {
      this.sha, this.slots, this.state := sha, slots, state;
    }

    /** The newest of the slots that hold a state, the second where they hold equally new ones; without any, only untouched slots open. */
    static method Open(sha: Hash, slots: Slots) returns (r: Result<ProtocolStore, StoreError>)
      ensures match Spec.Open(slots.Now())
              case Ok(st) => r.Ok? && fresh(r.value) && r.value.state == st && r.value.slots == slots && r.value.sha == sha
              case Err(e) => r == Err(e)
      ensures r.Ok? && slots.slot0.Holds? ==> slots.slot0.state.sequence <= r.value.state.sequence
      ensures r.Ok? && slots.slot1.Holds? ==>
                && slots.slot1.state.sequence <= r.value.state.sequence
                && (slots.slot1.state.sequence == r.value.state.sequence ==> r.value.state == slots.slot1.state)
      ensures r.Ok? ==>
                || Spec.Holds(r.value.state) in {slots.slot0, slots.slot1}
                || (r.value.state == Spec.INITIAL && slots.slot0 == slots.slot1 == Spec.Missing)
      ensures slots.Survives() ==> (r.Ok? <==> slots.Now() != TORN_FIRST)
      ensures slots.Survives() && r.Ok? ==> r.value.Valid() && r.value.state == r.value.Durable()
    {
      var valid: seq<State> := [];
      var invalid := 0;
      if slots.slot0.Holds? { valid := valid + [slots.slot0.state]; } else if slots.slot0.Torn? { invalid := invalid + 1; }
      if slots.slot1.Holds? { valid := valid + [slots.slot1.state]; } else if slots.slot1.Torn? { invalid := invalid + 1; }
      if valid == [] && invalid > 0 {
        return Err(Spec.NoRecoverableSlot);
      }
      var newest := if valid == [] then Spec.INITIAL
                    else if |valid| == 2 && valid[0].sequence <= valid[1].sequence then valid[1] else valid[0];
      var store := new ProtocolStore(sha, slots, newest);
      r := Ok(store);
    }

    method Save(reply: Spec.Reply) returns (r: Result<Spec.Reply, StoreError>)
      modifies this, slots
      ensures Did(Spec.Save(old(state), old(slots.Now()), reply), r)
    {
      if state.sequence == U64_MAX {
        return Err(Spec.SequenceExhausted);
      }
      var next := state.(sequence := state.sequence + 1);
      slots.Overwrite(next.sequence % 2, next);
      state := next;
      r := Ok(reply);
    }

    /** The profile is cached durably for the peer until it expires; nothing else changes. */
    method PersistNegotiation(peer: Octets32, expiresAt: u64, profile: Negotiation.Profile) returns (r: Result<Spec.Reply, StoreError>)
      requires Valid()
      modifies this, slots
      ensures Performed(Spec.PersistNegotiation(peer, expiresAt, profile), r) && Went(Spec.PersistNegotiation(peer, expiresAt, profile), r)
      ensures r.Ok? <==> old(state.sequence) < U64_MAX
      ensures r.Ok? ==> forall p, at: u64 ::
                Spec.CachedNegotiation(Durable(), p, at) == if p == peer && at <= expiresAt then Some(profile) else None
      ensures SameInstalled(old(Durable()), Durable(), None)
    {
      state := state.(cache := Some(Spec.CapabilityCache(peer, expiresAt, profile)));
      r := Save(Spec.Done);
      DidSafe(Spec.PersistNegotiation(peer, expiresAt, profile), r);
    }

    method CachedNegotiation(peer: Octets32, now: u64) returns (r: Option<Negotiation.Profile>)
      ensures r == Spec.CachedNegotiation(state, peer, now)
    {
      if state.cache.None? || state.cache.value.peer != peer || now > state.cache.value.expiresAt {
        return None;
      }
      r := Some(state.cache.value.profile);
    }

    /** A collection is installed once, empty, beside all others. */
    method InitializeCollection(checkpoint: Summary) returns (r: Result<Spec.Reply, StoreError>)
      requires Valid()
      modifies this, slots
      ensures Performed(Spec.InitializeCollection(checkpoint), r) && Went(Spec.InitializeCollection(checkpoint), r)
      ensures r.Ok? <==> checkpoint.collectionId !in old(Durable()).collections && old(state.sequence) < U64_MAX
      ensures r == Err(Spec.CollectionConflict) <==> checkpoint.collectionId in old(Durable()).collections
      ensures r.Ok? ==>
                && checkpoint.collectionId in Durable().collections
                && Durable().collections[checkpoint.collectionId] == Spec.Collection(checkpoint, [], None)
      ensures SameInstalled(old(Durable()), Durable(), None)
    {
      hide OnlyTouches, SameButPushed, ExposedOldOrNew, SoundSlots;
      if checkpoint.collectionId in state.collections {
        r := Err(Spec.CollectionConflict);
      } else {
        state := Spec.WithCollection(state, checkpoint.collectionId, Spec.Collection(checkpoint, [], None));
        r := Save(Spec.Done);
      }
      DidSafe(Spec.InitializeCollection(checkpoint), r);
    }

    /**
     Begins exactly from an installed checkpoint towards one of the same collection that is no older, durably and with nothing
     accepted yet; what is installed stays.
     */
    method BeginReconciliation(prior: Summary, target: Summary, mode: OfferMode) returns (r: Result<Spec.Reply, StoreError>)
      requires Valid()
      modifies this, slots
      ensures Performed(Spec.BeginReconciliation(prior, target, mode), r) && Went(Spec.BeginReconciliation(prior, target, mode), r)
      ensures r.Ok? <==>
                && Installed(old(Durable()), prior) && prior.collectionId == target.collectionId && prior.generation <= target.generation
                && old(state.sequence) < U64_MAX
      ensures r == Err(Spec.UnknownCollection) <==>
                && prior.collectionId == target.collectionId && prior.generation <= target.generation
                && prior.collectionId !in old(Durable()).collections
      ensures r.Ok? || r.error in {Spec.CollectionConflict, Spec.UnknownCollection, Spec.SequenceExhausted}
      ensures r.Ok? ==>
                && Installed(Durable(), prior)
                && Durable().collections[prior.collectionId].session == Some(Spec.Session(prior, target, mode, None, [], false))
      ensures SameInstalled(old(Durable()), Durable(), None)
    {
      hide OnlyTouches, SameButPushed, ExposedOldOrNew, SoundSlots;
      if prior.collectionId != target.collectionId || prior.generation > target.generation {
        r := Err(Spec.CollectionConflict);
      } else if prior.collectionId !in state.collections {
        r := Err(Spec.UnknownCollection);
      } else if state.collections[prior.collectionId].checkpoint != prior {
        r := Err(Spec.CollectionConflict);
      } else {
        var c := state.collections[prior.collectionId];
        state := Spec.WithCollection(state, prior.collectionId, c.(session := Some(Spec.Session(prior, target, mode, None, [], false))));
        r := Save(Spec.Done);
      }
      DidSafe(Spec.BeginReconciliation(prior, target, mode), r);
    }

    /** Pushes entries until the first clash. */
    static method PushEntries(accepted: seq<Entry>, page: seq<Entry>) returns (pushed: seq<Entry>, clean: bool)
      ensures (pushed, clean) == Spec.Push(accepted, page)
      ensures exists k: nat :: FirstClash(accepted, page, k) && pushed == accepted + page[..k] && (clean <==> k == |page|)
    {
      ghost var k := PushStops(accepted, page);
      pushed := accepted;
      for i := 0 to |page|
        invariant Spec.Push(accepted, page) == Spec.Push(pushed, page[i..])
      {
        if Spec.Clashes(pushed, page[i]) {
          return pushed, false;
        }
        pushed := pushed + [page[i]];
      }
      clean := true;
    }

    /**
     A page is acknowledged exactly if the session holds it already, which answers at once and leaves everything as it is, or
     if it lies beyond the cursor and repeats nothing accepted, while a save is left. Acknowledged, it is in the durable session whole,
     behind what was accepted before; committed again, in this life or after a reopening, it is acknowledged again, exposes no slot image
     and changes nothing. What is installed stays whatever the page.
     */
    method CommitOfferPage(offer: Offer) returns (r: Result<Spec.Reply, StoreError>)
      requires Valid()
      modifies this, slots
      ensures Performed(Spec.CommitOfferPage(offer), r) && Went(Spec.CommitOfferPage(offer), r)
      ensures r.Ok? ==> PageTaken(old(state), offer, state)
      ensures r.Ok? <==> PageHeld(old(Durable()), offer) || (PageContinues(old(state), offer) && old(state.sequence) < U64_MAX)
      ensures PageHeld(old(Durable()), offer) ==> r == Ok(Spec.Done) && state == old(state) && slots.exposed == old(slots.exposed)
      ensures r.Ok? ==>
                && PageHeld(Durable(), offer)
                && Spec.Perform(sha, state, slots.Now(), Spec.CommitOfferPage(offer)) == Spec.Effect([], state, Ok(Spec.Done))
                && Spec.Perform(sha, Durable(), slots.Now(), Spec.CommitOfferPage(offer)) == Spec.Effect([], Durable(), Ok(Spec.Done))
      ensures r == Err(Spec.CursorRegression) <==>
                && InSession(old(state), offer)
                && var s := old(state).collections[offer.collectionId].session.value;
                   s.cursor != Some(offer.lastCursor) && !Reconciliation.Beyond(s.mode, s.cursor, offer.descriptors[0])
      ensures SameInstalled(old(Durable()), Durable(), None)
    {
      hide PageHeld, PageContinues, ExposedOldOrNew, SoundSlots, SameButPushed, DistinctPages, OnlyTouches;
      hide ValidateOffer, Spec.Push, Spec.Belongs, Spec.Advances, Reconciliation.Beyond;
      r := TakePage(offer);
      DidSafe(Spec.CommitOfferPage(offer), r);
      TakenPage(old(state), offer);
      PageAnswer(old(state), offer);
      HeldIsDurable(old(state), old(Durable()), offer);
      if r.Ok? {
        PageIsIdempotent(sha, old(Durable()), old(state), old(slots.Now()), offer);
      }
      PageKeepsInstalled(old(state), offer);
    }

    method TakePage(offer: Offer) returns (r: Result<Spec.Reply, StoreError>)
      modifies this, slots
      ensures Performed(Spec.CommitOfferPage(offer), r)
    {
      if ValidateOffer(offer).Fail? {
        return Err(Spec.CollectionConflict);
      }
      if offer.collectionId !in state.collections {
        return Err(Spec.UnknownCollection);
      }
      var c := state.collections[offer.collectionId];
      if c.session.None? {
        return Err(Spec.NoReconciliation);
      }
      var s := c.session.value;
      if !Spec.Belongs(s, offer) {
        return Err(Spec.CollectionConflict);
      }
      if s.cursor == Some(offer.lastCursor) {
        return if forall e | e in offer.descriptors :: e in s.accepted then Ok(Spec.Done) else Err(Spec.CollectionConflict);
      }
      if s.cursor.Some? && !Spec.Advances(s.cursor.value, offer.firstCursor) {
        return Err(Spec.CursorRegression);
      }
      r := PushPage(offer);
    }

    method PushPage(offer: Offer) returns (r: Result<Spec.Reply, StoreError>)
      requires offer.collectionId in state.collections && state.collections[offer.collectionId].session.Some?
      modifies this, slots
      ensures var c := old(state).collections[offer.collectionId];
              var s := c.session.value;
              var (accepted, clean) := Spec.Push(s.accepted, offer.descriptors);
              if clean then
                var s' := s.(accepted := accepted, cursor := Some(offer.lastCursor), complete := !offer.more);
                Did(Spec.Save(Spec.WithCollection(old(state), offer.collectionId, c.(session := Some(s'))), old(slots.Now()), Spec.Done), r)
              else
                Did(Spec.Effect([], Spec.WithCollection(old(state), offer.collectionId, c.(session := Some(s.(accepted := accepted)))),
                                Err(Spec.CollectionConflict)), r)
    {
      var c := state.collections[offer.collectionId];
      var s := c.session.value;
      var accepted, clean := PushEntries(s.accepted, offer.descriptors);
      s := s.(accepted := accepted);
      if !clean {
        state := Spec.WithCollection(state, offer.collectionId, c.(session := Some(s)));
        return Err(Spec.CollectionConflict);
      }
      s := s.(cursor := Some(offer.lastCursor), complete := !offer.more);
      state := Spec.WithCollection(state, offer.collectionId, c.(session := Some(s)));
      r := Save(Spec.Done);
    }

    /**
     A finish passes exactly if the pages are complete and what was assembled has the session's target as its checkpoint, while a save is left. It
     then installs the target over exactly what was assembled; one that does not pass changes nothing durable and says why.
     */
    method FinishReconciliation(id: Octets32) returns (r: Result<Spec.Reply, StoreError>)
      requires Valid()
      modifies this, slots
      ensures Performed(Spec.FinishReconciliation(id), r) && Went(Spec.FinishReconciliation(id), r)
      ensures r.Ok? || (r == Err(Spec.SequenceExhausted) && old(state.sequence) == U64_MAX) <==>
                && id in old(state).collections && old(state).collections[id].session.Some?
                && var c := old(state).collections[id];
                   && c.session.value.complete
                   && CollectionCheckpoint(sha, id, c.session.value.target.generation, Spec.Assembled(c)) == Ok(c.session.value.target)
      ensures r == Err(Spec.UnknownCollection) <==> id !in old(state).collections
      ensures r == Err(Spec.NoReconciliation) <==> id in old(state).collections && old(state).collections[id].session.None?
      ensures r == Err(Spec.IncompletePages) <==>
                && id in old(state).collections && old(state).collections[id].session.Some?
                && !old(state).collections[id].session.value.complete
      ensures r == Err(Spec.CollectionConflict) <==>
                && id in old(state).collections && old(state).collections[id].session.Some? && old(state).collections[id].session.value.complete
                && CollectionCheckpoint(sha, id, old(state).collections[id].session.value.target.generation,
                                        Spec.Assembled(old(state).collections[id])).Err?
      ensures r.Ok? ==>
                && id in old(state).collections && old(state).collections[id].session.Some?
                && var c := old(state).collections[id];
                   && Installed(Durable(), c.session.value.target) && c.session.value.target.collectionId == id
                   && Durable().collections[id] == Spec.Collection(c.session.value.target, Spec.Assembled(c), None)
                   && CollectionCheckpoint(sha, id, c.session.value.target.generation, Spec.Assembled(c)) == Ok(c.session.value.target)
      ensures SameInstalled(old(Durable()), Durable(), if r.Ok? then Some(id) else None)
    {
      hide OnlyTouches, SameButPushed, ExposedOldOrNew, SoundSlots, DistinctPages;
      r := Gate(id);
      DidSafe(Spec.FinishReconciliation(id), r);
      FinishAnswer(sha, old(state), id);
      if r.Ok? {
        FinishInstallsTarget(sha, old(state), id);
      }
    }

    method Gate(id: Octets32) returns (r: Result<Spec.Reply, StoreError>)
      modifies this, slots
      ensures Performed(Spec.FinishReconciliation(id), r)
    {
      if id !in state.collections {
        return Err(Spec.UnknownCollection);
      }
      var c := state.collections[id];
      if c.session.None? {
        return Err(Spec.NoReconciliation);
      }
      var s := c.session.value;
      if !s.complete {
        return Err(Spec.IncompletePages);
      }
      var entries := if s.mode == Delta then c.retained else [];
      entries := entries + s.accepted;
      var computed := CollectionCheckpoint(sha, id, s.target.generation, entries);
      if computed.Err? {
        return Err(Spec.CollectionConflict);
      }
      if computed.value != s.target {
        return Err(Spec.TargetDigestMismatch);
      }
      state := Spec.WithCollection(state, id, Spec.Collection(computed.value, entries, None));
      r := Save(Spec.Done);
    }

    /** A receipt is durable once acknowledged, and reported new exactly once. */
    method CommitReceipt(receipt: Octets16) returns (r: Result<Spec.Reply, StoreError>)
      requires Valid()
      modifies this, slots
      ensures Performed(Spec.CommitReceipt(receipt), r) && Went(Spec.CommitReceipt(receipt), r)
      ensures r.Ok? <==> receipt in old(Durable()).receipts || old(state.sequence) < U64_MAX
      ensures r.Ok? ==> r.value == Spec.Flag(receipt !in old(Durable()).receipts)
      ensures Durable().receipts == old(Durable()).receipts + if r.Ok? then {receipt} else {}
      ensures SameInstalled(old(Durable()), Durable(), None)
    {
      if receipt in state.receipts {
        r := Ok(Spec.Flag(false));
      } else {
        state := state.(receipts := state.receipts + {receipt});
        r := Save(Spec.Flag(true));
      }
      DidSafe(Spec.CommitReceipt(receipt), r);
    }

    /** An object is bound once and for all: accepted again with the same semantics, refused with any other. */
    method ObserveImmutableObject(objectId: Octets32, semantics: Octets32) returns (r: Result<Spec.Reply, StoreError>)
      requires Valid()
      modifies this, slots
      ensures Performed(Spec.ObserveObject(objectId, semantics), r) && Went(Spec.ObserveObject(objectId, semantics), r)
      ensures r.Ok? ==> objectId in Durable().bindings && Durable().bindings[objectId] == semantics
      ensures r.Ok? ==> r.value == Spec.Flag(objectId !in old(Durable()).bindings)
      ensures r.Ok? || r.error in {Spec.ImmutableObjectConflict, Spec.SequenceExhausted}
      ensures r == Err(Spec.SequenceExhausted) <==> objectId !in old(Durable()).bindings && old(state.sequence) == U64_MAX
      ensures r == Err(Spec.ImmutableObjectConflict) <==> objectId in old(Durable()).bindings && old(Durable()).bindings[objectId] != semantics
      ensures forall o | o in old(Durable()).bindings :: o in Durable().bindings && Durable().bindings[o] == old(Durable()).bindings[o]
      ensures SameInstalled(old(Durable()), Durable(), None)
    {
      if objectId in state.bindings {
        r := if state.bindings[objectId] == semantics then Ok(Spec.Flag(false)) else Err(Spec.ImmutableObjectConflict);
      } else {
        state := state.(bindings := state.bindings[objectId := semantics]);
        r := Save(Spec.Flag(true));
      }
      DidSafe(Spec.ObserveObject(objectId, semantics), r);
    }

    /** An encodable failure, durably recorded, brings its scope one retry and leaves all others theirs; any other is refused. */
    method RecordFailure(failure: Failure) returns (r: Result<Spec.Reply, StoreError>)
      requires Valid()
      modifies this, slots
      ensures Performed(Spec.RecordFailure(failure), r) && Went(Spec.RecordFailure(failure), r)
      ensures r.Ok? <==> B1Record.ExactSize(Record(FailureOp(failure), [])).Ok? && old(state.sequence) < U64_MAX
      ensures r == Err(Spec.InvalidFailure) <==> B1Record.ExactSize(Record(FailureOp(failure), [])).Err?
      ensures r.Ok? ==> RetryLeft(Durable(), failure.scope) == 1 && !MayRetry(Durable(), failure.scope)
      ensures r.Ok? ==>
                && failure.scope in Durable().failures
                && Durable().failures[failure.scope] == Spec.FailureState(failure.code, failure.retryable, false, 0)
      ensures forall scope | scope != failure.scope :: SameRetry(old(Durable()), Durable(), scope)
      ensures SameInstalled(old(Durable()), Durable(), None)
    {
      hide OnlyTouches, SameButPushed, ExposedOldOrNew, SoundSlots;
      hide B1Record.ExactSize;
      if B1Record.ExactSize(Record(FailureOp(failure), [])).Err? {
        r := Err(Spec.InvalidFailure);
      } else {
        var replacement := Spec.FailureState(failure.code, failure.retryable, false, 0);
        state := state.(failures := state.failures[failure.scope := replacement]);
        r := Save(Spec.Done);
      }
      DidSafe(Spec.RecordFailure(failure), r);
    }

    /** A changed condition makes the retry of its scope available, if the failure left one, but brings no further one. */
    method MarkFailureConditionChanged(scope: Bytes) returns (r: Result<Spec.Reply, StoreError>)
      requires Valid()
      modifies this, slots
      ensures Performed(Spec.MarkConditionChanged(scope), r) && Went(Spec.MarkConditionChanged(scope), r)
      ensures r.Ok? <==> scope in old(Durable()).failures && old(state.sequence) < U64_MAX
      ensures r == Err(Spec.UnknownFailureScope) <==> scope !in old(Durable()).failures
      ensures r.Ok? ==>
                scope in Durable().failures && Durable().failures[scope] == old(Durable()).failures[scope].(conditionChanged := true)
      ensures r.Ok? ==>
                (MayRetry(Durable(), scope) <==> old(Durable()).failures[scope].retryable && RetryLeft(old(Durable()), scope) == 1)
      ensures forall other :: RetryLeft(Durable(), other) == RetryLeft(old(Durable()), other)
      ensures forall other | other != scope :: SameRetry(old(Durable()), Durable(), other)
      ensures SameInstalled(old(Durable()), Durable(), None)
    {
      hide OnlyTouches, SameButPushed, ExposedOldOrNew, SoundSlots;
      if scope !in state.failures {
        r := Err(Spec.UnknownFailureScope);
      } else {
        state := state.(failures := state.failures[scope := state.failures[scope].(conditionChanged := true)]);
        r := Save(Spec.Done);
      }
      DidSafe(Spec.MarkConditionChanged(scope), r);
    }

    /** A retry is granted exactly where one is left and available, and granting uses it up before the reply; nothing else is used up. */
    method TakeFailureRetry(scope: Bytes) returns (r: Result<Spec.Reply, StoreError>)
      requires Valid()
      modifies this, slots
      ensures Performed(Spec.TakeFailureRetry(scope), r) && Went(Spec.TakeFailureRetry(scope), r)
      ensures r == Ok(Spec.Flag(true)) <==> MayRetry(old(Durable()), scope) && old(state.sequence) < U64_MAX
      ensures r == Ok(Spec.Flag(false)) <==> scope in old(Durable()).failures && !MayRetry(old(Durable()), scope)
      ensures r == Err(Spec.UnknownFailureScope) <==> scope !in old(Durable()).failures
      ensures r == Ok(Spec.Flag(true)) ==>
                && RetryLeft(old(Durable()), scope) == 1 && RetryLeft(Durable(), scope) == 0
                && Durable().failures[scope] == old(Durable()).failures[scope].(attempts := 1)
      ensures r != Ok(Spec.Flag(true)) ==> Durable() == old(Durable())
      ensures forall other | other != scope :: SameRetry(old(Durable()), Durable(), other)
      ensures SameInstalled(old(Durable()), Durable(), None)
    {
      hide OnlyTouches, SameButPushed, ExposedOldOrNew, SoundSlots;
      if scope !in state.failures {
        r := Err(Spec.UnknownFailureScope);
      } else {
        var f := state.failures[scope];
        if !f.retryable || !f.conditionChanged || f.attempts != 0 {
          r := Ok(Spec.Flag(false));
        } else {
          state := state.(failures := state.failures[scope := f.(attempts := 1)]);
          r := Save(Spec.Flag(true));
        }
      }
      DidSafe(Spec.TakeFailureRetry(scope), r);
    }
  }
}
