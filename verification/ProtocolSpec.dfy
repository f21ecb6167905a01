/**
 What each call of the protocol store does to its volatile state and to its two slots.

 Sorted vectors without duplicates are sets and maps here. A slot is overwritten in place, so a crash during
 a save leaves it torn; the other slot is not touched.
 */
module ProtocolSpec {
  import opened Wrappers
  import opened Octets
  import opened Representation
  import opened Operations
  import opened EntryOrder
  import opened Checkpoints
  import Negotiation
  import B1Record

  datatype CapabilityCache = CapabilityCache(peer: Octets32, expiresAt: u64, profile: Negotiation.Profile)

  /** A reconciliation in progress. */
  datatype Session = Session(
    prior: Summary,
    target: Summary,
    mode: OfferMode,
    cursor: Option<Cursor>,
    accepted: seq<Entry>,
    complete: bool)

  datatype Collection = Collection(checkpoint: Summary, retained: seq<Entry>, session: Option<Session>)

  datatype FailureState = FailureState(code: FailureCode, retryable: bool, conditionChanged: bool, attempts: byte)

  datatype State = State(
    sequence: u64,
    cache: Option<CapabilityCache>,
    collections: map<Octets32, Collection>,
    receipts: set<Octets16>,
    bindings: map<Octets32, Octets32>,
    failures: map<Bytes, FailureState>)

  const INITIAL := State(0, None, map[], {}, map[], map[])

  datatype Slot = Missing | Torn | Holds(state: State)

  datatype Image = Image(slot0: Slot, slot1: Slot) {
    function SlotAt(index: nat): Slot
      requires index < 2
    {
      if index == 0 then slot0 else slot1
    }

    function WithSlot(index: nat, slot: Slot): Image
      requires index < 2
    {
      if index == 0 then this.(slot0 := slot) else this.(slot1 := slot)
    }
  }

  const EMPTY_DISK := Image(Missing, Missing)

  datatype StoreError =
    | NoRecoverableSlot | SequenceExhausted | UnknownCollection | CollectionConflict | NoReconciliation | CursorRegression
    | IncompletePages | TargetDigestMismatch | InvalidFailure | UnknownFailureScope | ImmutableObjectConflict

  datatype Reply = Done | Flag(value: bool)

  /** The volatile state a call computes, its reply, and whether it is saved before replying. */
  datatype Plan = Plan(state: State, reply: Result<Reply, StoreError>, saves: bool)

  datatype Effect = Effect(trace: seq<Image>, state: State, reply: Result<Reply, StoreError>)

  datatype Op =
    | PersistNegotiation(peer: Octets32, expiresAt: u64, profile: Negotiation.Profile)
    | InitializeCollection(checkpoint: Summary)
    | BeginReconciliation(prior: Summary, target: Summary, mode: OfferMode)
    | CommitOfferPage(offer: Offer)
    | FinishReconciliation(id: Octets32)
    | CommitReceipt(receipt: Octets16)
    | ObserveObject(objectId: Octets32, semantics: Octets32)
    | RecordFailure(failure: Failure)
    | MarkConditionChanged(scope: Bytes)
    | TakeFailureRetry(scope: Bytes)

  function Refuse(st: State, error: StoreError): Plan {
    Plan(st, Err(error), false)
  }

  function WithCollection(st: State, id: Octets32, c: Collection): State {
    st.(collections := st.collections[id := c])
  }

  // ---- Reconciliation ----

  function PlanBegin(st: State, prior: Summary, target: Summary, mode: OfferMode): Plan {
    if prior.collectionId != target.collectionId || prior.generation > target.generation then
      Refuse(st, CollectionConflict)
    else if prior.collectionId !in st.collections then
      Refuse(st, UnknownCollection)
    else if st.collections[prior.collectionId].checkpoint != prior then
      Refuse(st, CollectionConflict)
    else
      var c := st.collections[prior.collectionId];
      Plan(WithCollection(st, prior.collectionId, c.(session := Some(Session(prior, target, mode, None, [], false)))), Ok(Done), true)
  }

  predicate Clashes(accepted: seq<Entry>, e: Entry) {
    exists a | a in accepted :: a.sequence == e.sequence || a.Key() == e.Key()
  }

  /** Entries are pushed one at a time; a clash stops the push, leaving the earlier ones in memory. */
  function Push(accepted: seq<Entry>, page: seq<Entry>): (seq<Entry>, bool)
    decreases |page|
  {
    if page == [] then (accepted, true)
    else if Clashes(accepted, page[0]) then (accepted, false)
    else Push(accepted + [page[0]], page[1..])
  }

  predicate Belongs(s: Session, offer: Offer) {
    && s.target.generation == offer.targetGeneration
    && s.mode == offer.mode
    && (offer.mode == Delta ==> s.prior.generation == offer.baseGeneration)
    && (offer.mode == Full ==> offer.baseGeneration == 0)
  }

  predicate Advances(previous: Cursor, next: Cursor) {
    match (previous, next)
    case (DeltaCursor(p), DeltaCursor(n)) => n > p
    case (FullCursor(p), FullCursor(n)) => KeyLess(p, n)
    case _ => false
  }

  function PlanPage(st: State, offer: Offer): Plan {
    if ValidateOffer(offer).Fail? then
      Refuse(st, CollectionConflict)
    else if offer.collectionId !in st.collections then
      Refuse(st, UnknownCollection)
    else if st.collections[offer.collectionId].session.None? then
      Refuse(st, NoReconciliation)
    else
      var c := st.collections[offer.collectionId];
      var s := c.session.value;
      if !Belongs(s, offer) then
        Refuse(st, CollectionConflict)
      else if s.cursor == Some(offer.lastCursor) then
        if forall e | e in offer.descriptors :: e in s.accepted then Plan(st, Ok(Done), false) else Refuse(st, CollectionConflict)
      else if s.cursor.Some? && !Advances(s.cursor.value, offer.firstCursor) then
        Refuse(st, CursorRegression)
      else
        var (accepted, clean) := Push(s.accepted, offer.descriptors);
        if !clean then
          Plan(WithCollection(st, offer.collectionId, c.(session := Some(s.(accepted := accepted)))), Err(CollectionConflict), false)
        else
          var s' := s.(accepted := accepted, cursor := Some(offer.lastCursor), complete := !offer.more);
          Plan(WithCollection(st, offer.collectionId, c.(session := Some(s'))), Ok(Done), true)
  }

  function Assembled(c: Collection): seq<Entry>
    requires c.session.Some?
  {
    (if c.session.value.mode == Delta then c.retained else []) + c.session.value.accepted
  }

  function PlanFinish(sha: Hash, st: State, id: Octets32): Plan {
    if id !in st.collections then
      Refuse(st, UnknownCollection)
    else if st.collections[id].session.None? then
      Refuse(st, NoReconciliation)
    else if !st.collections[id].session.value.complete then
      Refuse(st, IncompletePages)
    else
      var c := st.collections[id];
      var target := c.session.value.target;
      var computed := CollectionCheckpoint(sha, id, target.generation, Assembled(c));
      if computed.Err? then
        Refuse(st, CollectionConflict)
      else if computed.value != target then
        Refuse(st, TargetDigestMismatch)
      else
        Plan(WithCollection(st, id, Collection(computed.value, Assembled(c), None)), Ok(Done), true)
  }

  // ---- Failures ----

  function PlanRecord(st: State, f: Failure): Plan {
    if B1Record.ExactSize(Record(FailureOp(f), [])).Err? then
      Refuse(st, InvalidFailure)
    else
      Plan(st.(failures := st.failures[f.scope := FailureState(f.code, f.retryable, false, 0)]), Ok(Done), true)
  }

  function PlanMark(st: State, scope: Bytes): Plan {
    if scope !in st.failures then
      Refuse(st, UnknownFailureScope)
    else
      Plan(st.(failures := st.failures[scope := st.failures[scope].(conditionChanged := true)]), Ok(Done), true)
  }

  function PlanTake(st: State, scope: Bytes): Plan {
    if scope !in st.failures then
      Refuse(st, UnknownFailureScope)
    else
      var f := st.failures[scope];
      if !f.retryable || !f.conditionChanged || f.attempts != 0 then
        Plan(st, Ok(Flag(false)), false)
      else
        Plan(st.(failures := st.failures[scope := f.(attempts := 1)]), Ok(Flag(true)), true)
  }

  // ---- All calls ----

  function PlanOf(sha: Hash, st: State, op: Op): Plan {
    match op
    case PersistNegotiation(peer, expiresAt, profile) =>
      Plan(st.(cache := Some(CapabilityCache(peer, expiresAt, profile))), Ok(Done), true)
    case InitializeCollection(checkpoint) =>
      if checkpoint.collectionId in st.collections then
        Refuse(st, CollectionConflict)
      else
        Plan(WithCollection(st, checkpoint.collectionId, Collection(checkpoint, [], None)), Ok(Done), true)
    case BeginReconciliation(prior, target, mode) => PlanBegin(st, prior, target, mode)
    case CommitOfferPage(offer) => PlanPage(st, offer)
    case FinishReconciliation(id) => PlanFinish(sha, st, id)
    case CommitReceipt(receipt) =>
      if receipt in st.receipts then Plan(st, Ok(Flag(false)), false)
      else Plan(st.(receipts := st.receipts + {receipt}), Ok(Flag(true)), true)
    case ObserveObject(objectId, semantics) =>
      if objectId in st.bindings then
        if st.bindings[objectId] == semantics then Plan(st, Ok(Flag(false)), false) else Refuse(st, ImmutableObjectConflict)
      else
        Plan(st.(bindings := st.bindings[objectId := semantics]), Ok(Flag(true)), true)
    case RecordFailure(failure) => PlanRecord(st, failure)
    case MarkConditionChanged(scope) => PlanMark(st, scope)
    case TakeFailureRetry(scope) => PlanTake(st, scope)
  }

  // ---- Slots ----

  function OverwriteTrace(img: Image, index: nat, state: State): seq<Image>
    requires index < 2
  {
    [img.WithSlot(index, Torn), img.WithSlot(index, Holds(state))]
  }

  function Save(st: State, img: Image, reply: Reply): Effect {
    if st.sequence == U64_MAX then
      Effect([], st, Err(SequenceExhausted))
    else
      var next := st.(sequence := st.sequence + 1);
      Effect(OverwriteTrace(img, next.sequence % 2, next), next, Ok(reply))
  }

  function Perform(sha: Hash, st: State, img: Image, op: Op): Effect {
    var plan := PlanOf(sha, st, op);
    if plan.saves && plan.reply.Ok? then Save(plan.state, img, plan.reply.value) else Effect([], plan.state, plan.reply)
  }

  function Open(img: Image): Result<State, StoreError> {
    if !img.slot0.Holds? && !img.slot1.Holds? then
      if img.slot0.Torn? || img.slot1.Torn? then Err(NoRecoverableSlot) else Ok(INITIAL)
    else if img.slot1.Holds? && (img.slot0.Holds? ==> img.slot0.state.sequence <= img.slot1.state.sequence) then
      Ok(img.slot1.state)
    else
      Ok(img.slot0.state)
  }

  /** The cached profile of exactly this peer, unless stale. */
  function CachedNegotiation(st: State, peer: Octets32, now: u64): Option<Negotiation.Profile> {
    if st.cache.Some? && st.cache.value.peer == peer && now <= st.cache.value.expiresAt then Some(st.cache.value.profile) else None
  }
}
