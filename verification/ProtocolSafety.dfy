/** Two-slot atomicity under torn writes, and what holds over every run of the protocol store. */
module ProtocolSafety {
  import opened Wrappers
  import opened Octets
  import opened Operations
  import opened EntryOrder
  import opened Checkpoints
  import opened ProtocolSpec
  import B1Record
  import Reconciliation

  // ---- Two slots ----

  ghost predicate Superseded(slot: Slot, st: State) {
    !slot.Holds? || slot.state.sequence < st.sequence
  }

  /** `st` is what opening the slots recovers: nothing ever saved, or the newest save in its own slot. */
  ghost predicate LastSaved(st: State, img: Image) {
    if st.sequence == 0 then
      st == INITIAL && img == EMPTY_DISK
    else
      img.SlotAt(st.sequence % 2) == Holds(st) && Superseded(img.SlotAt(1 - st.sequence % 2), st)
  }

  lemma LastSavedIsOpened(st: State, img: Image)
    requires LastSaved(st, img)
    ensures Open(img) == Ok(st)
  {
  }

  /**
   A save torn at any octet leaves the old state recoverable exactly when something was saved before;
   the slot of the newest state is never written, and the completed save recovers the new state.
   */
  lemma SaveIsAtomic(st: State, changed: State, img: Image, reply: Reply)
    requires LastSaved(st, img) && changed.sequence == st.sequence < U64_MAX
    ensures var e := Save(changed, img, reply);
            && e.reply == Ok(reply) && e.state == changed.(sequence := st.sequence + 1) && |e.trace| == 2
            && (if st.sequence == 0 then Open(e.trace[0]) == Err(NoRecoverableSlot) else Open(e.trace[0]) == Ok(st))
            && Open(e.trace[1]) == Ok(e.state)
            && e.trace[0].SlotAt(st.sequence % 2) == e.trace[1].SlotAt(st.sequence % 2) == img.SlotAt(st.sequence % 2)
            && (st.sequence > 0 ==> LastSaved(st, e.trace[0]))
            && LastSaved(e.state, e.trace[1])
  {
    var i := (st.sequence + 1) % 2;
    assert i == if st.sequence % 2 == 0 then 1 else 0;
  }

  // ---- Runs ----

  datatype Event = Reopen | Invoke(op: Op, cut: Option<nat>)

  datatype World = World(img: Image, live: Option<State>)

  function Step(sha: Hash, w: World, event: Event): World {
    match event
    case Reopen =>
      var found := Open(w.img);
      World(w.img, if found.Ok? then Some(found.value) else None)
    case Invoke(op, cut) =>
      if w.live.None? then
        w
      else
        var e := Perform(sha, w.live.value, w.img, op);
        match cut
        case Some(k) => World(if k == 0 || e.trace == [] then w.img else e.trace[Min(k, |e.trace|) - 1], None)
        case None =>
          World(if e.trace == [] then w.img else e.trace[|e.trace| - 1],
                if e.reply == Err(SequenceExhausted) then None else Some(e.state))
  }

  function Run(sha: Hash, w: World, events: seq<Event>): World
    decreases |events|
  {
    if events == [] then w else Run(sha, Step(sha, w, events[0]), events[1..])
  }

  ghost predicate DistinctEntries(s: seq<Entry>) {
    forall i, j | 0 <= i < j < |s| :: s[i].sequence != s[j].sequence && s[i].Key() != s[j].Key()
  }

  /** The pages a reconciliation has accepted never repeat a sequence or a key. */
  ghost predicate DistinctPages(st: State) {
    forall id | id in st.collections && st.collections[id].session.Some? :: DistinctEntries(st.collections[id].session.value.accepted)
  }

  /** Memory differs from the durable state at most in page entries pushed by a refused page. */
  ghost predicate SameButPages(live: State, durable: State) {
    && live == durable.(collections := live.collections)
    && live.collections.Keys == durable.collections.Keys
    && forall id | id in live.collections ::
         && live.collections[id].checkpoint == durable.collections[id].checkpoint
         && live.collections[id].retained == durable.collections[id].retained
         && SameButPushed(live.collections[id].session, durable.collections[id].session)
  }

  /** The same reconciliation, but for further entries that all lie beyond its cursor. */
  ghost predicate SameButPushed(live: Option<Session>, durable: Option<Session>) {
    match (live, durable)
    case (None, None) => true
    case (Some(l), Some(d)) =>
      && l == d.(accepted := l.accepted) && d.accepted <= l.accepted
      && forall i | |d.accepted| <= i < |l.accepted| :: Reconciliation.Beyond(d.mode, d.cursor, l.accepted[i])
    case _ => false
  }

  ghost predicate Good(w: World, durable: State) {
    && LastSaved(durable, w.img) && DistinctPages(durable)
    && (w.live.Some? ==> SameButPages(w.live.value, durable) && DistinctPages(w.live.value))
  }

  /** The first save was torn: nothing was ever durable, and nothing opens. */
  ghost predicate Stillborn(w: World) {
    w.img == TORN_FIRST && w.live.None?
  }

  // ---- Plans ----

  lemma {:induction false} PushDistinct(accepted: seq<Entry>, page: seq<Entry>)
    requires DistinctEntries(accepted)
    ensures DistinctEntries(Push(accepted, page).0)
    ensures accepted <= Push(accepted, page).0
    decreases |page|
  {
    if page != [] && !Clashes(accepted, page[0]) {
      var more := accepted + [page[0]];
      forall i, j | 0 <= i < j < |more|
        ensures more[i].sequence != more[j].sequence && more[i].Key() != more[j].Key()
      {
        if j == |accepted| {
          assert accepted[i] in accepted;
        }
      }
      PushDistinct(more, page[1..]);
    }
  }

  lemma PageDistinct(st: State, offer: Offer)
    requires DistinctPages(st)
    ensures DistinctPages(PlanPage(st, offer).state)
  {
    if offer.collectionId in st.collections && st.collections[offer.collectionId].session.Some? {
      PushDistinct(st.collections[offer.collectionId].session.value.accepted, offer.descriptors);
    }
  }

  lemma PlanDistinct(sha: Hash, st: State, op: Op)
    requires DistinctPages(st)
    ensures DistinctPages(PlanOf(sha, st, op).state)
    ensures PlanOf(sha, st, op).state.sequence == st.sequence
  {
    if op.CommitOfferPage? {
      PageDistinct(st, op.offer);
    }
  }

  /** A call that does not save changes memory only by pushing page entries. */
  lemma UnsavedPlanKeeps(sha: Hash, st: State, op: Op)
    requires !(PlanOf(sha, st, op).saves && PlanOf(sha, st, op).reply.Ok?)
    ensures SameButPages(PlanOf(sha, st, op).state, st)
    ensures PlanOf(sha, st, op).reply != Err(SequenceExhausted)
  {
    hide CollectionCheckpoint, ValidateOffer, Clashes, Belongs, Advances, PlanBegin, PlanFinish, PlanRecord, PlanPage;
    match op
    case CommitOfferPage(offer) => PageUnsaved(st, offer);
    case BeginReconciliation(prior, target, mode) => BeginUnsaved(st, prior, target, mode);
    case FinishReconciliation(id) => FinishUnsaved(sha, st, id);
    case RecordFailure(failure) => RecordUnsaved(st, failure);
    case _ =>
  }

  /** The first entry of the page that clashes with what was accepted before it, page entries included, is the one at `k`. */
  ghost predicate FirstClash(accepted: seq<Entry>, page: seq<Entry>, k: nat) {
    && k <= |page|
    && (forall i | 0 <= i < k :: !Clashes(accepted + page[..i], page[i]))
    && (k < |page| ==> Clashes(accepted + page[..k], page[k]))
  }

  /** A page is pushed up to its first clash. */
  lemma {:induction false} PushStops(accepted: seq<Entry>, page: seq<Entry>) returns (k: nat)
    ensures FirstClash(accepted, page, k) && Push(accepted, page) == (accepted + page[..k], k == |page|)
    decreases |page|
  {
    hide Clashes;
    k := 0;
    assert accepted + page[..0] == accepted;
    if page != [] && !Clashes(accepted, page[0]) {
      var more, rest := accepted + [page[0]], page[1..];
      k := PushStops(more, rest);
      forall i | 0 <= i <= k
        ensures more + rest[..i] == accepted + page[..i + 1]
      {
      }
      forall i | 0 <= i < k + 1
        ensures !Clashes(accepted + page[..i], page[i])
      {
        if i > 0 {
          assert more + rest[..i - 1] == accepted + page[..i] && rest[i - 1] == page[i];
        }
      }
      k := k + 1;
    }
  }

  /** Whatever entries of a page beyond the cursor are pushed, they lie beyond the cursor. */
  lemma PushedBeyond(s: Session, offer: Offer)
    requires ValidateOffer(offer).Pass? && s.mode == offer.mode
    requires s.cursor.Some? ==> Advances(s.cursor.value, offer.firstCursor)
    ensures SameButPushed(Some(s.(accepted := Push(s.accepted, offer.descriptors).0)), Some(s))
  {
    hide Push;
    var k := PushStops(s.accepted, offer.descriptors);
    AllBeyond(s, offer);
  }

  /** A page in ascending order lies beyond the cursor exactly if its first entry does. */
  lemma AllBeyond(s: Session, offer: Offer)
    requires ValidateOffer(offer).Pass? && s.mode == offer.mode
    ensures s.cursor.None? || Advances(s.cursor.value, offer.firstCursor) <==>
              forall e | e in offer.descriptors :: Reconciliation.Beyond(s.mode, s.cursor, e)
  {
    hide ValidateEntries;
    var page := offer.descriptors;
    assert page[0] in page;
    if s.cursor.None? || Advances(s.cursor.value, offer.firstCursor) {
      forall i | 0 <= i < |page|
        ensures Reconciliation.Beyond(s.mode, s.cursor, page[i])
      {
        if i > 0 && s.cursor.Some? {
          AscendingIsStrict(offer.mode, page, 0, i);
          if s.mode == Full {
            KeyTransitive(s.cursor.value.key, page[0].Key(), page[i].Key());
          }
        }
      }
    }
  }

  lemma {:induction false} AscendingIsStrict(mode: OfferMode, page: seq<Entry>, i: nat, j: nat)
    requires Ascending(mode, page) && i < j < |page|
    ensures Before(mode, page[i], page[j])
    decreases j
  {
    if i + 1 < j {
      AscendingIsStrict(mode, page, i, j - 1);
      RankTransitive(mode, page[i], page[j - 1], page[j]);
    }
  }

  lemma PageUnsaved(st: State, offer: Offer)
    requires !(PlanPage(st, offer).saves && PlanPage(st, offer).reply.Ok?)
    ensures SameButPages(PlanPage(st, offer).state, st)
    ensures PlanPage(st, offer).reply != Err(SequenceExhausted)
  {
    hide ValidateOffer, Clashes, Push, Advances, Reconciliation.Beyond;
    if ValidateOffer(offer).Pass? && offer.collectionId in st.collections && st.collections[offer.collectionId].session.Some? {
      var s := st.collections[offer.collectionId].session.value;
      if s.mode == offer.mode && (s.cursor.Some? ==> Advances(s.cursor.value, offer.firstCursor)) {
        PushedBeyond(s, offer);
      }
    }
  }

  lemma BeginUnsaved(st: State, prior: Summary, target: Summary, mode: OfferMode)
    ensures var plan := PlanBegin(st, prior, target, mode);
            plan.reply.Ok? ==> plan.saves
    ensures var plan := PlanBegin(st, prior, target, mode);
            plan.reply.Err? ==> plan.state == st && plan.reply.error != SequenceExhausted
  {
  }

  lemma FinishUnsaved(sha: Hash, st: State, id: Octets32)
    ensures var plan := PlanFinish(sha, st, id);
            plan.reply.Ok? ==> plan.saves
    ensures var plan := PlanFinish(sha, st, id);
            plan.reply.Err? ==> plan.state == st && plan.reply.error != SequenceExhausted
  {
  }

  lemma RecordUnsaved(st: State, f: Failure)
    ensures var plan := PlanRecord(st, f);
            plan.reply.Ok? ==> plan.saves
    ensures var plan := PlanRecord(st, f);
            plan.reply.Err? ==> plan.state == st && plan.reply.error != SequenceExhausted
  {
  }

  lemma SameTransitive(a: State, b: State, c: State)
    requires SameButPages(a, b) && SameButPages(b, c)
    ensures SameButPages(a, c)
  {
  }

  lemma SameReflexive(a: State)
    ensures SameButPages(a, a)
  {
  }

  /** The state an event saves if it gets that far. */
  ghost function Planned(sha: Hash, w: World, event: Event): Option<State> {
    if event.Reopen? || w.live.None? then
      None
    else
      var plan := PlanOf(sha, w.live.value, event.op);
      if plan.saves && plan.reply.Ok? && w.live.value.sequence < U64_MAX then
        Some(plan.state.(sequence := w.live.value.sequence + 1))
      else
        None
  }

  /** The durable state after any event, cut or not, is the old one or the planned one; completed, it is the planned one. */
  lemma StepGood(sha: Hash, w: World, durable: State, event: Event) returns (next: State)
    requires Good(w, durable)
    ensures if Stillborn(Step(sha, w, event)) then next == durable == INITIAL else Good(Step(sha, w, event), next)
    ensures next == durable || Planned(sha, w, event) == Some(next)
    ensures event.Invoke? && event.cut.None? && Planned(sha, w, event).Some? ==> Planned(sha, w, event) == Some(next)
    ensures durable.sequence > 0 ==> next.sequence > 0
  {
    hide SameButPushed, DistinctEntries, PlanOf;
    LastSavedIsOpened(durable, w.img);
    SameReflexive(durable);
    next := durable;
    if event.Invoke? && w.live.Some? {
      var live := w.live.value;
      var plan := PlanOf(sha, live, event.op);
      PlanDistinct(sha, live, event.op);
      if plan.saves && plan.reply.Ok? {
        if durable.sequence < U64_MAX {
          SaveIsAtomic(durable, plan.state, w.img, plan.reply.value);
          var e := Save(plan.state, w.img, plan.reply.value);
          SameReflexive(e.state);
          if event.cut.None? || event.cut.value >= 2 {
            next := e.state;
          }
        }
      } else {
        UnsavedPlanKeeps(sha, live, event.op);
        SameTransitive(plan.state, live, durable);
      }
    }
  }

  // ---- What a call touches ----

  ghost predicate SameOutside<K(!new), V>(earlier: map<K, V>, later: map<K, V>, key: K) {
    forall k | k != key :: (k in later <==> k in earlier) && (k in earlier ==> later[k] == earlier[k])
  }

  /** Between the two states nothing changed but what the call is about. */
  ghost predicate OnlyTouches(earlier: State, later: State, op: Op) {
    match op
    case PersistNegotiation(_, _, _) => later == earlier.(cache := later.cache)
    case InitializeCollection(checkpoint) => OnlyCollection(earlier, later, checkpoint.collectionId)
    case BeginReconciliation(prior, _, _) => OnlyCollection(earlier, later, prior.collectionId)
    case CommitOfferPage(offer) => OnlyCollection(earlier, later, offer.collectionId)
    case FinishReconciliation(id) => OnlyCollection(earlier, later, id)
    case CommitReceipt(receipt) => later == earlier.(receipts := later.receipts) && later.receipts - {receipt} == earlier.receipts - {receipt}
    case ObserveObject(objectId, _) =>
      later == earlier.(bindings := later.bindings) && SameOutside(earlier.bindings, later.bindings, objectId)
    case RecordFailure(failure) => OnlyFailure(earlier, later, failure.scope)
    case MarkConditionChanged(scope) => OnlyFailure(earlier, later, scope)
    case TakeFailureRetry(scope) => OnlyFailure(earlier, later, scope)
  }

  ghost predicate OnlyCollection(earlier: State, later: State, id: Octets32) {
    later == earlier.(collections := later.collections) && SameOutside(earlier.collections, later.collections, id)
  }

  ghost predicate OnlyFailure(earlier: State, later: State, scope: Bytes) {
    later == earlier.(failures := later.failures) && SameOutside(earlier.failures, later.failures, scope)
  }

  /** No call touches anything but what it is about, whether it succeeds or not. */
  lemma CallTouches(sha: Hash, st: State, op: Op)
    ensures OnlyTouches(st, PlanOf(sha, st, op).state, op)
  {
    hide CollectionCheckpoint, ValidateOffer, Belongs, Advances, Push, B1Record.ExactSize;
  }

  lemma PerformTouches(sha: Hash, st: State, img: Image, op: Op)
    ensures OnlyTouches(st, Perform(sha, st, img, op).state.(sequence := st.sequence), op)
  {
    hide PlanOf, OnlyTouches;
    CallTouches(sha, st, op);
    PlanSequence(sha, st, op);
    var e := Perform(sha, st, img, op);
    assert e.state.(sequence := st.sequence) == PlanOf(sha, st, op).state;
  }

  lemma PlanSequence(sha: Hash, st: State, op: Op)
    ensures PlanOf(sha, st, op).state.sequence == st.sequence
  {
    CallTouches(sha, st, op);
  }

  // ---- What is installed ----

  ghost predicate Installed(st: State, checkpoint: Summary) {
    checkpoint.collectionId in st.collections && st.collections[checkpoint.collectionId].checkpoint == checkpoint
  }

  /** No collection lost, and none with another checkpoint or other retained entries, except possibly `but`. */
  ghost predicate SameInstalled(earlier: State, later: State, but: Option<Octets32>) {
    forall id | id in earlier.collections ::
      && id in later.collections
      && (but != Some(id) ==>
            && later.collections[id].checkpoint == earlier.collections[id].checkpoint
            && later.collections[id].retained == earlier.collections[id].retained)
  }

  /** After this page the session holds it whole, each entry once, and nothing else was accepted or dropped. */
  ghost predicate PageTaken(st: State, offer: Offer, later: State) {
    && offer.collectionId in st.collections && st.collections[offer.collectionId].session.Some?
    && offer.collectionId in later.collections && later.collections[offer.collectionId].session.Some?
    && var s, s' := st.collections[offer.collectionId].session.value, later.collections[offer.collectionId].session.value;
       && s'.cursor == Some(offer.lastCursor) && (forall e | e in offer.descriptors :: e in s'.accepted)
       && (s' == s || (s'.accepted == s.accepted + offer.descriptors && s'.complete == !offer.more))
  }

  lemma {:induction false} CleanPushAppends(accepted: seq<Entry>, page: seq<Entry>)
    ensures Push(accepted, page).1 ==> Push(accepted, page).0 == accepted + page
    decreases |page|
  {
    if page != [] && !Clashes(accepted, page[0]) {
      CleanPushAppends(accepted + [page[0]], page[1..]);
      assert accepted + [page[0]] + page[1..] == accepted + page;
    } else if page == [] {
      assert accepted + page == accepted;
    }
  }

  lemma TakenPage(st: State, offer: Offer)
    ensures PlanPage(st, offer).reply.Ok? ==> PageTaken(st, offer, PlanPage(st, offer).state)
  {
    hide ValidateOffer, Belongs, Advances, Clashes;
    if offer.collectionId in st.collections && st.collections[offer.collectionId].session.Some? {
      CleanPushAppends(st.collections[offer.collectionId].session.value.accepted, offer.descriptors);
    }
  }

  /** The page is valid and belongs to the collection's reconciliation: its target, its mode, its base. */
  ghost predicate InSession(st: State, offer: Offer) {
    && ValidateOffer(offer).Pass?
    && offer.collectionId in st.collections && st.collections[offer.collectionId].session.Some?
    && var s := st.collections[offer.collectionId].session.value;
       && offer.targetGeneration == s.target.generation && offer.mode == s.mode
       && offer.baseGeneration == if offer.mode == Delta then s.prior.generation else 0
  }

  /** The reconciliation stands at the end of this page and has all of it. */
  ghost predicate PageHeld(st: State, offer: Offer) {
    && InSession(st, offer)
    && var s := st.collections[offer.collectionId].session.value;
       s.cursor == Some(offer.lastCursor) && forall e | e in offer.descriptors :: e in s.accepted
  }

  /** All of the page lies beyond the cursor, and none of it repeats the sequence or the key of an accepted entry. */
  ghost predicate PageContinues(st: State, offer: Offer) {
    && InSession(st, offer)
    && var s := st.collections[offer.collectionId].session.value;
       && (forall e | e in offer.descriptors :: Reconciliation.Beyond(s.mode, s.cursor, e))
       && (forall a, e | a in s.accepted && e in offer.descriptors :: a.sequence != e.sequence && a.Key() != e.Key())
  }

  lemma {:induction false} CleanPush(accepted: seq<Entry>, page: seq<Entry>)
    requires DistinctEntries(page)
    ensures Push(accepted, page).1 <==> forall a, e | a in accepted && e in page :: a.sequence != e.sequence && a.Key() != e.Key()
    decreases |page|
  {
    if page != [] {
      assert page == [page[0]] + page[1..];
      if !Clashes(accepted, page[0]) {
        var more := accepted + [page[0]];
        CleanPush(more, page[1..]);
        assert forall a :: a in more <==> a in accepted || a == page[0];
      }
    }
  }

  lemma EndIsNotBeyond(mode: OfferMode, e: Entry)
    ensures !Reconciliation.Beyond(mode, Some(CursorAt(mode, e)), e)
  {
    KeyTotal(e.Key(), e.Key());
  }

  /**
   A page is acknowledged exactly if it belongs to the session and is either held at the cursor already, which leaves everything as it is, or lies
   beyond the cursor without repeating anything accepted, which is saved; and each refusal says why.
   */
  lemma PageAnswer(st: State, offer: Offer)
    ensures var plan := PlanPage(st, offer);
            && (plan.reply.Ok? <==> PageHeld(st, offer) || PageContinues(st, offer))
            && (PageHeld(st, offer) ==> plan == Plan(st, Ok(Done), false))
            && (PageContinues(st, offer) ==> plan.reply == Ok(Done) && plan.saves)
            && (plan.reply == Err(UnknownCollection) <==> ValidateOffer(offer).Pass? && offer.collectionId !in st.collections)
            && (plan.reply == Err(NoReconciliation) <==>
                  ValidateOffer(offer).Pass? && offer.collectionId in st.collections && st.collections[offer.collectionId].session.None?)
            && (plan.reply == Err(CursorRegression) <==>
                  && InSession(st, offer)
                  && var s := st.collections[offer.collectionId].session.value;
                     s.cursor != Some(offer.lastCursor) && !Reconciliation.Beyond(s.mode, s.cursor, offer.descriptors[0]))
            && (plan.reply.Err? ==> plan.reply.error in {UnknownCollection, NoReconciliation, CursorRegression, CollectionConflict})
  {
    hide Push, Clashes;
    if InSession(st, offer) {
      var s := st.collections[offer.collectionId].session.value;
      var page := offer.descriptors;
      ValidOfferMeans(offer);
      AllBeyond(s, offer);
      CleanPush(s.accepted, page);
      EndIsNotBeyond(offer.mode, page[|page| - 1]);
      assert page[|page| - 1] in page;
    }
  }

  /** What is held or taken in memory is held on disk: after an acknowledged page the durable session holds it. */
  lemma HeldIsDurable(live: State, durable: State, offer: Offer)
    requires SameButPages(live, durable)
    ensures PageHeld(live, offer) <==> PageHeld(durable, offer)
  {
    if InSession(live, offer) {
      var l, d := live.collections[offer.collectionId].session.value, durable.collections[offer.collectionId].session.value;
      var page := offer.descriptors;
      if d.cursor == Some(offer.lastCursor) {
        forall e | e in page
          ensures e in l.accepted <==> e in d.accepted
        {
          var i :| 0 <= i < |page| && page[i] == e;
          EndIsBeyondNone(offer, i);
        }
      }
    }
  }

  lemma EndIsBeyondNone(offer: Offer, i: nat)
    requires ValidateOffer(offer).Pass? && i < |offer.descriptors|
    ensures !Reconciliation.Beyond(offer.mode, Some(offer.lastCursor), offer.descriptors[i])
  {
    hide ValidateEntries;
    var page := offer.descriptors;
    var last := |page| - 1;
    if i < last {
      AscendingIsStrict(offer.mode, page, i, last);
      RankTotal(offer.mode, page[i], page[last]);
    } else {
      EndIsNotBeyond(offer.mode, page[last]);
    }
  }

  lemma AcknowledgedIsHeld(st: State, offer: Offer)
    requires PlanPage(st, offer).reply.Ok?
    ensures PageHeld(PlanPage(st, offer).state, offer)
  {
    hide ValidateOffer, Push, Clashes, Advances;
    PageAnswer(st, offer);
    TakenPage(st, offer);
  }

  /**
   An acknowledged page is durable, whatever pages were refused before it; committed a second time, in the same life or after
   a reopening, it is acknowledged again, exposes no slot image and changes nothing.
   */
  lemma PageIsIdempotent(sha: Hash, durable: State, live: State, img: Image, offer: Offer)
    requires Good(World(img, Some(live)), durable)
    requires Perform(sha, live, img, CommitOfferPage(offer)).reply.Ok?
    ensures var e := Perform(sha, live, img, CommitOfferPage(offer));
            var img' := if e.trace == [] then img else e.trace[|e.trace| - 1];
            && Open(img').Ok? && PageHeld(Open(img').value, offer)
            && Perform(sha, e.state, img', CommitOfferPage(offer)) == Effect([], e.state, Ok(Done))
            && Perform(sha, Open(img').value, img', CommitOfferPage(offer)) == Effect([], Open(img').value, Ok(Done))
  {
    hide PlanPage, PageHeld, SameButPages;
    var e := Perform(sha, live, img, CommitOfferPage(offer));
    CompletedIsDurable(sha, durable, live, img, CommitOfferPage(offer));
    AcknowledgedIsHeld(live, offer);
    var img' := if e.trace == [] then img else e.trace[|e.trace| - 1];
    HeldIgnoresSequence(PlanPage(live, offer).state, e.state, offer);
    HeldIsDurable(e.state, Open(img').value, offer);
    PageAnswer(e.state, offer);
    PageAnswer(Open(img').value, offer);
  }

  lemma HeldIgnoresSequence(a: State, b: State, offer: Offer)
    requires a.collections == b.collections
    ensures PageHeld(a, offer) <==> PageHeld(b, offer)
  {
  }

  lemma PageKeepsInstalled(st: State, offer: Offer)
    ensures SameInstalled(st, PlanPage(st, offer).state, None)
  {
    hide ValidateOffer, Belongs, Advances, Clashes, Push;
  }

  // ---- Images a crash may leave ----

  /** What a crash inside the very first save leaves: nothing older to fall back on. */
  const TORN_FIRST := Image(Missing, Torn)

  /** Slots that hold a last save without repeated pages, or only the torn first save. */
  ghost predicate SoundSlots(img: Image) {
    img == TORN_FIRST || (Open(img).Ok? && LastSaved(Open(img).value, img) && DistinctPages(Open(img).value))
  }

  lemma OpensUnlessTornFirst(img: Image)
    requires SoundSlots(img)
    ensures Open(img).Ok? <==> img != TORN_FIRST
    ensures Open(img).Err? ==> Open(img) == Err(NoRecoverableSlot)
  {
  }

  /**
   Every image a call exposes is sound and opens to the old durable state or the one saved; only the first save may be
   torn beyond recovery.
   */
  lemma ExposedIsSound(sha: Hash, durable: State, live: State, img: Image, op: Op, k: nat)
    requires Good(World(img, Some(live)), durable)
    requires k < |Perform(sha, live, img, op).trace|
    ensures var e := Perform(sha, live, img, op);
            && SoundSlots(e.trace[k])
            && (durable.sequence > 0 ==> Open(e.trace[k]) == Ok(durable) || Open(e.trace[k]) == Ok(e.state))
            && (durable.sequence == 0 ==> e.trace[k] == TORN_FIRST || Open(e.trace[k]) == Ok(e.state))
  {
    var w, event := World(img, Some(live)), Invoke(op, Some(k + 1));
    var next := StepGood(sha, w, durable, event);
    assert Step(sha, w, event).img == Perform(sha, live, img, op).trace[k];
    if !Stillborn(Step(sha, w, event)) {
      LastSavedIsOpened(next, Step(sha, w, event).img);
    }
  }

  /** A completed call is durable if it was to be saved; refused, it leaves the slots alone. */
  lemma CompletedIsDurable(sha: Hash, durable: State, live: State, img: Image, op: Op)
    requires Good(World(img, Some(live)), durable)
    ensures var e := Perform(sha, live, img, op);
            var img' := if e.trace == [] then img else e.trace[|e.trace| - 1];
            && SoundSlots(img') && Open(img').Ok?
            && (e.reply != Err(SequenceExhausted) ==> Good(World(img', Some(e.state)), Open(img').value))
            && (e.reply.Err? ==> e.trace == [])
            && (e.trace == [] ==> Open(img').value == durable)
            && (e.trace != [] ==> Open(img').value == e.state && e.state.sequence == live.sequence + 1)
  {
    var w, event := World(img, Some(live)), Invoke(op, None);
    var next := StepGood(sha, w, durable, event);
    LastSavedIsOpened(durable, img);
    LastSavedIsOpened(next, Step(sha, w, event).img);
    PlanDistinct(sha, live, op);
  }

  // ---- At most one automatic retry for each recorded failure ----

  /** Whether the event completes a call that grants a retry for the scope. */
  function Grants(sha: Hash, w: World, event: Event, scope: Bytes): nat {
    if event == Invoke(TakeFailureRetry(scope), None) && w.live.Some?
       && Perform(sha, w.live.value, w.img, event.op).reply == Ok(Flag(true)) then 1 else 0
  }

  /** Whether the event starts recording a failure of the scope, one that can be recorded. */
  function Records(w: World, event: Event, scope: Bytes): nat {
    if event.Invoke? && w.live.Some? && event.op.RecordFailure? && event.op.failure.scope == scope
       && PlanRecord(w.live.value, event.op.failure).reply.Ok? then 1 else 0
  }

  function AllGrants(sha: Hash, w: World, events: seq<Event>, scope: Bytes): nat
    decreases |events|
  {
    if events == [] then 0
    else Grants(sha, w, events[0], scope) + AllGrants(sha, Step(sha, w, events[0]), events[1..], scope)
  }

  function AllRecords(sha: Hash, w: World, events: seq<Event>, scope: Bytes): nat
    decreases |events|
  {
    if events == [] then 0
    else Records(w, events[0], scope) + AllRecords(sha, Step(sha, w, events[0]), events[1..], scope)
  }

  /** The retry still to be had for the scope. */
  function RetryLeft(st: State, scope: Bytes): nat {
    if scope in st.failures && st.failures[scope].attempts == 0 then 1 else 0
  }

  /** The retry that is left may be taken now. */
  ghost predicate MayRetry(st: State, scope: Bytes) {
    scope in st.failures && st.failures[scope].retryable && st.failures[scope].conditionChanged && RetryLeft(st, scope) == 1
  }

  ghost predicate SameRetry(earlier: State, later: State, scope: Bytes) {
    RetryLeft(later, scope) == RetryLeft(earlier, scope) && (MayRetry(later, scope) <==> MayRetry(earlier, scope))
  }

  lemma PlannedRetryLeft(sha: Hash, st: State, op: Op, scope: Bytes)
    ensures var plan := PlanOf(sha, st, op);
            && (op.RecordFailure? && op.failure.scope == scope ==> RetryLeft(plan.state, scope) <= 1)
            && (!(op.RecordFailure? && op.failure.scope == scope) ==> RetryLeft(plan.state, scope) <= RetryLeft(st, scope))
            && (op == TakeFailureRetry(scope) && plan.reply == Ok(Flag(true)) ==>
                  plan.saves && RetryLeft(st, scope) == 1 && RetryLeft(plan.state, scope) == 0)
  {
  }

  lemma StepRetryLeft(sha: Hash, w: World, durable: State, event: Event, scope: Bytes, next: State)
    requires Good(w, durable)
    requires next == durable || Planned(sha, w, event) == Some(next)
    requires event.Invoke? && event.cut.None? && Planned(sha, w, event).Some? ==> Planned(sha, w, event) == Some(next)
    ensures Grants(sha, w, event, scope) + RetryLeft(next, scope) <= Records(w, event, scope) + RetryLeft(durable, scope)
  {
    if event.Invoke? && w.live.Some? {
      PlannedRetryLeft(sha, w.live.value, event.op, scope);
    }
  }

  lemma {:induction false} StillbornGrantsNothing(sha: Hash, w: World, events: seq<Event>, scope: Bytes)
    requires Stillborn(w)
    ensures AllGrants(sha, w, events, scope) == 0
    decreases |events|
  {
    if events != [] {
      StillbornGrantsNothing(sha, Step(sha, w, events[0]), events[1..], scope);
    }
  }

  /**
   Over any run, with crashes inside saves and reopenings, the retries granted never outnumber the failures recorded
   by more than the one still to be had at its start.
   */
  lemma {:induction false} RetriesAreBounded(sha: Hash, w: World, durable: State, events: seq<Event>, scope: Bytes)
    requires Good(w, durable)
    ensures AllGrants(sha, w, events, scope) <= AllRecords(sha, w, events, scope) + RetryLeft(durable, scope)
    decreases |events|
  {
    if events != [] {
      var next := StepGood(sha, w, durable, events[0]);
      StepRetryLeft(sha, w, durable, events[0], scope, next);
      var w' := Step(sha, w, events[0]);
      if Stillborn(w') {
        StillbornGrantsNothing(sha, w', events[1..], scope);
      } else {
        RetriesAreBounded(sha, w', next, events[1..], scope);
      }
    }
  }

  /** From an empty disk: at most one retry for each recorded failure. */
  lemma OneRetryPerFailure(sha: Hash, events: seq<Event>, scope: Bytes)
    ensures var start := World(EMPTY_DISK, None);
            AllGrants(sha, start, events, scope) <= AllRecords(sha, start, events, scope)
  {
    RetriesAreBounded(sha, World(EMPTY_DISK, None), INITIAL, events, scope);
  }

  lemma PlanKeepsReceipts(sha: Hash, st: State, op: Op)
    ensures var st' := PlanOf(sha, st, op).state;
            && st.receipts <= st'.receipts
            && (forall o | o in st.bindings :: o in st'.bindings && st'.bindings[o] == st.bindings[o])
  {
  }

  /** Over any run, with crashes inside saves and reopenings, no durable receipt is lost and no durable object binding lost or changed. */
  lemma {:induction false} ReceiptsAndBindingsStay(sha: Hash, w: World, durable: State, events: seq<Event>) returns (last: State)
    requires Good(w, durable) && durable.sequence > 0
    ensures Good(Run(sha, w, events), last) && Open(Run(sha, w, events).img) == Ok(last)
    ensures durable.receipts <= last.receipts
    ensures forall o | o in durable.bindings :: o in last.bindings && last.bindings[o] == durable.bindings[o]
    decreases |events|
  {
    if events == [] {
      last := durable;
      LastSavedIsOpened(durable, w.img);
    } else {
      var next := StepGood(sha, w, durable, events[0]);
      if next != durable {
        PlanKeepsReceipts(sha, w.live.value, events[0].op);
      }
      last := ReceiptsAndBindingsStay(sha, Step(sha, w, events[0]), next, events[1..]);
    }
  }

  /** The state a call leaves in memory. */
  function Then(sha: Hash, st: State, op: Op): State {
    PlanOf(sha, st, op).state
  }

  /** After a recorded failure and a condition change one retry is granted, and only one, exactly if the failure was retryable. */
  lemma RetryOnceAfterChange(sha: Hash, st: State, failure: Failure)
    requires PlanRecord(st, failure).reply.Ok?
    ensures var recorded := Then(sha, st, RecordFailure(failure));
            var changed := Then(sha, recorded, MarkConditionChanged(failure.scope));
            var taken := Then(sha, changed, TakeFailureRetry(failure.scope));
            && PlanOf(sha, recorded, TakeFailureRetry(failure.scope)).reply == Ok(Flag(false))
            && PlanOf(sha, recorded, MarkConditionChanged(failure.scope)).reply == Ok(Done)
            && PlanOf(sha, changed, TakeFailureRetry(failure.scope)).reply == Ok(Flag(failure.retryable))
            && PlanOf(sha, taken, TakeFailureRetry(failure.scope)).reply == Ok(Flag(false))
            && PlanOf(sha, Then(sha, taken, MarkConditionChanged(failure.scope)), TakeFailureRetry(failure.scope)).reply == Ok(Flag(false))
  {
  }

  // ---- Arbitrary peers ----

  /** The event is a finish of this collection that passed the digest gate. */
  ghost predicate Finishes(sha: Hash, w: World, event: Event, id: Octets32) {
    && event.Invoke? && w.live.Some? && event.op == FinishReconciliation(id)
    && PlanFinish(sha, w.live.value, id).reply.Ok?
  }

  lemma PlanKeepsCheckpoints(sha: Hash, st: State, op: Op, id: Octets32)
    requires id in st.collections
    requires !(op == FinishReconciliation(id) && PlanFinish(sha, st, id).reply.Ok?)
    ensures var st' := PlanOf(sha, st, op).state;
            && id in st'.collections
            && st'.collections[id].checkpoint == st.collections[id].checkpoint
            && st'.collections[id].retained == st.collections[id].retained
  {
  }

  /** A finish that passes installs the target over exactly what was assembled, and ends the session. */
  lemma FinishInstallsTarget(sha: Hash, st: State, id: Octets32)
    requires PlanFinish(sha, st, id).reply.Ok?
    ensures id in st.collections && st.collections[id].session.Some?
    ensures var c, c' := st.collections[id], PlanFinish(sha, st, id).state.collections[id];
            && c'.checkpoint == c.session.value.target
            && c'.retained == Assembled(c)
            && c'.session.None?
            && CollectionCheckpoint(sha, id, c'.checkpoint.generation, c'.retained) == Ok(c'.checkpoint)
  {
  }

  /** A finish passes exactly over complete pages whose assembled entries have the target as their checkpoint; each refusal says why. */
  lemma FinishAnswer(sha: Hash, st: State, id: Octets32)
    ensures var reply := PlanFinish(sha, st, id).reply;
            && (reply == Err(UnknownCollection) <==> id !in st.collections)
            && (reply == Err(NoReconciliation) <==> id in st.collections && st.collections[id].session.None?)
            && (reply == Err(IncompletePages) <==>
                  id in st.collections && st.collections[id].session.Some? && !st.collections[id].session.value.complete)
            && (reply.Ok? || reply.error in {CollectionConflict, TargetDigestMismatch} ==>
                  && id in st.collections && st.collections[id].session.Some?
                  && var target := st.collections[id].session.value.target;
                     var computed := CollectionCheckpoint(sha, id, target.generation, Assembled(st.collections[id]));
                     (reply.Ok? <==> computed == Ok(target)) && (reply == Err(CollectionConflict) <==> computed.Err?))
            && (reply.Err? ==> reply.error in {UnknownCollection, NoReconciliation, IncompletePages, CollectionConflict, TargetDigestMismatch})
  {
  }

  /**
   Whatever pages a peer sent, a finish that passes holds the keys of the target's entries, in sequence order (barring
   a digest collision).
   */
  lemma FinishedKeysAreTheTargets(sha: Hash, st: State, id: Octets32, entries: seq<Entry>)
    requires PlanFinish(sha, st, id).reply.Ok? && id in st.collections && st.collections[id].session.Some?
    requires var target := st.collections[id].session.value.target;
             && CollectionCheckpoint(sha, id, target.generation, entries) == Ok(target)
             && |Covered(target.generation, entries)| <= MAX_COLLECTION_ENTRIES
             && NoCollision(sha, CollectionImage(id, target.generation, Covered(target.generation, entries)))
    ensures var g := st.collections[id].session.value.target.generation;
            Keys(Covered(g, PlanFinish(sha, st, id).state.collections[id].retained)) == Keys(Covered(g, entries))
  {
    FinishInstallsTarget(sha, st, id);
    var g := st.collections[id].session.value.target.generation;
    CheckpointFixesKeys(sha, id, g, entries, PlanFinish(sha, st, id).state.collections[id].retained);
  }

  ghost predicate NoneFinishes(sha: Hash, w: World, events: seq<Event>, id: Octets32)
    decreases |events|
  {
    events != [] ==> !Finishes(sha, w, events[0], id) && NoneFinishes(sha, Step(sha, w, events[0]), events[1..], id)
  }

  /**
   For any offers, crashes and reopenings, as long as no finish of a collection passes the digest gate its durable
   checkpoint and retained entries stay what they were, and the pages accepted for it stay free of repetition.
   */
  lemma {:induction false} OnlyFinishChangesCheckpoints(sha: Hash, w: World, durable: State, events: seq<Event>, id: Octets32) returns (last: State)
    requires Good(w, durable) && id in durable.collections && durable.sequence > 0
    requires NoneFinishes(sha, w, events, id)
    ensures Good(Run(sha, w, events), last) && Open(Run(sha, w, events).img) == Ok(last) && DistinctPages(last)
    ensures id in last.collections
    ensures last.collections[id].checkpoint == durable.collections[id].checkpoint
    ensures last.collections[id].retained == durable.collections[id].retained
    decreases |events|
  {
    if events == [] {
      last := durable;
      LastSavedIsOpened(durable, w.img);
    } else {
      var next := StepGood(sha, w, durable, events[0]);
      if next != durable {
        PlanKeepsCheckpoints(sha, w.live.value, events[0].op, id);
      }
      last := OnlyFinishChangesCheckpoints(sha, Step(sha, w, events[0]), next, events[1..], id);
    }
  }
}
