/** End-to-end paging: an authority's pages, committed one by one across reopenings, install exactly its collection. */
module Paging {
  import opened Wrappers
  import opened Octets
  import opened Representation
  import opened Operations
  import opened EntryOrder
  import opened Checkpoints
  import opened Reconciliation
  import opened ProtocolSpec
  import opened ProtocolSafety
  import B1Codec
  import B1Record
  import B1Maxima

  /** What the authority holds, how large it makes its pages, and whether it is asked with the receiver's checkpoint or with none. */
  datatype Authority = Authority(current: Summary, retained: seq<Summary>, entries: seq<Entry>, desired: nat, octets: nat, named: bool) {
    function Asked(prior: Summary): Option<Summary> {
      if named then Some(prior) else None
    }

    function Mode(prior: Summary): OfferMode {
      if named && prior in retained then Delta else Full
    }

    function Base(prior: Summary): u64 {
      if named && prior in retained then prior.generation else 0
    }

    /** The entries to be offered to a receiver that stands at `prior`. */
    function Lacking(prior: Summary): seq<Entry> {
      Reconciliation.Missing(Mode(prior), Base(prior), entries)
    }
  }

  /**
   The authority's collection is well formed, a receiver that names its checkpoint stands elsewhere, and every lacking entry fits on a page by
   itself.
   */
  ghost predicate Serves(sha: Hash, a: Authority, prior: Summary) {
    && WellFormed(a.current, a.entries)
    && CollectionCheckpoint(sha, a.current.collectionId, a.current.generation, a.entries) == Ok(a.current)
    && 1 <= a.desired <= MAX_OFFER_DESCRIPTORS
    && (a.named ==> prior != a.current) && prior.collectionId == a.current.collectionId && prior.generation <= a.current.generation
    && forall e | e in a.Lacking(prior) :: SingleFits(a, prior, e)
  }

  ghost predicate SingleFits(a: Authority, prior: Summary, e: Entry) {
    var offer := MakeOffer(a.current, a.Mode(prior), a.Base(prior), [e], true);
    offer.Ok? && OfferSize(offer.value).Ok? && OfferSize(offer.value).value <= a.octets
  }

  // ---- Pages ----

  lemma MadeOfferHasSize(current: Summary, mode: OfferMode, base: u64, page: seq<Entry>, more: bool)
    requires page != [] && MakeOffer(current, mode, base, page, more).Ok?
    ensures OfferSize(MakeOffer(current, mode, base, page, more).value).Ok?
  {
    B1Maxima.OperationBounded(OfferOp(MakeOffer(current, mode, base, page, more).value));
  }

  ghost predicate Offerable(current: Summary, mode: OfferMode, base: u64, s: seq<Entry>) {
    Strict(mode, s) && GoodEntries(s, current.generation) && base <= current.generation
  }

  lemma {:induction false} PageLengthIsOk(current: Summary, mode: OfferMode, base: u64, s: seq<Entry>, limit: nat, octets: nat, n: nat)
    requires Offerable(current, mode, base, s) && n <= limit <= |s| && limit <= MAX_OFFER_DESCRIPTORS
    ensures PageLength(current, mode, base, s, limit, octets, n).Ok?
    ensures n <= PageLength(current, mode, base, s, limit, octets, n).value <= limit
    decreases limit - n
  {
    hide MakeOffer, OfferSize, ValidateOffer;
    if n < limit {
      assert s[0..n + 1] == s[..n + 1];
      SegmentOffers(current, mode, base, s, 0, n + 1, true);
      MadeOfferHasSize(current, mode, base, s[..n + 1], true);
      PageLengthIsOk(current, mode, base, s, limit, octets, n + 1);
    }
  }

  /** Over what is still missing, the next page is a non-empty first segment of it. */
  lemma NextPageIsSegment(current: Summary, mode: OfferMode, base: u64, s: seq<Entry>, desired: nat, octets: nat) returns (k: nat)
    requires Offerable(current, mode, base, s) && s != [] && 1 <= desired <= MAX_OFFER_DESCRIPTORS
    requires MakeOffer(current, mode, base, [s[0]], true).Ok?
    requires OfferSize(MakeOffer(current, mode, base, [s[0]], true).value).Ok?
    requires OfferSize(MakeOffer(current, mode, base, [s[0]], true).value).value <= octets
    ensures 1 <= k <= |s|
    ensures NextPage(current, mode, base, s, desired, octets) ==
              Ok(Offer(current.collectionId, mode, base, current.generation, CursorAt(mode, s[0]), CursorAt(mode, s[k - 1]), s[..k], k < |s|))
  {
    var limit := Min(desired, |s|);
    assert s[..1] == [s[0]];
    PageLengthIsOk(current, mode, base, s, limit, octets, 0);
    PageLengthIsOk(current, mode, base, s, limit, octets, 1);
    k := PageLength(current, mode, base, s, limit, octets, 0).value;
    assert PageLength(current, mode, base, s, limit, octets, 0) == PageLength(current, mode, base, s, limit, octets, 1);
    assert s[0..k] == s[..k];
    SegmentOffers(current, mode, base, s, 0, k, k < |s|);
  }

  // ---- The receiver between pages ----

  /** The session of a receiver that has accepted exactly the first `n` of the entries it lacks. */
  function SessionAt(a: Authority, prior: Summary, n: nat): Session
    requires n <= |a.Lacking(prior)|
  {
    var s := a.Lacking(prior);
    Session(prior, a.current, a.Mode(prior), if n == 0 then None else Some(CursorAt(a.Mode(prior), s[n - 1])), s[..n], n > 0 && n == |s|)
  }

  ghost predicate At(a: Authority, prior: Summary, retained: seq<Entry>, st: State, n: nat) {
    && n <= |a.Lacking(prior)|
    && a.current.collectionId in st.collections
    && st.collections[a.current.collectionId] == Collection(prior, retained, Some(SessionAt(a, prior, n)))
  }

  lemma LackingIsOfferable(sha: Hash, a: Authority, prior: Summary)
    requires Serves(sha, a, prior)
    ensures Offerable(a.current, a.Mode(prior), a.Base(prior), a.Lacking(prior))
  {
    MissingIsStrict(a.current, a.Mode(prior), a.Base(prior), a.entries);
    MissingIsGood(a.current, a.Mode(prior), a.Base(prior), a.entries);
  }

  /** The offer of the lacking entries from `n` up to `m`. */
  function SegmentOffer(a: Authority, prior: Summary, n: nat, m: nat): Offer
    requires n < m <= |a.Lacking(prior)|
  {
    var s, mode := a.Lacking(prior), a.Mode(prior);
    Offer(a.current.collectionId, mode, a.Base(prior), a.current.generation, CursorAt(mode, s[n]), CursorAt(mode, s[m - 1]), s[n..m], m < |s|)
  }

  lemma SegmentFollows(sha: Hash, a: Authority, prior: Summary, n: nat) returns (m: nat)
    requires Serves(sha, a, prior) && n < |a.Lacking(prior)|
    ensures n < m <= |a.Lacking(prior)|
    ensures NextPage(a.current, a.Mode(prior), a.Base(prior), a.Lacking(prior)[n..], a.desired, a.octets) == Ok(SegmentOffer(a, prior, n, m))
  {
    hide NextPage, MakeOffer, OfferSize, ValidateOffer, Offerable, Authority.Lacking, CollectionCheckpoint;
    LackingIsOfferable(sha, a, prior);
    var s, mode := a.Lacking(prior), a.Mode(prior);
    var rest := s[n..];
    SegmentOfferable(a.current, mode, a.Base(prior), s, n);
    assert SingleFits(a, prior, rest[0]) by {
      assert rest[0] in s;
    }
    var k := NextPageIsSegment(a.current, mode, a.Base(prior), rest, a.desired, a.octets);
    m := n + k;
    assert rest[..k] == s[n..m];
  }

  /** Asked with the cursor of `n` accepted entries, the authority answers with the segment from `n` on. */
  lemma AuthorityAnswers(sha: Hash, a: Authority, prior: Summary, n: nat) returns (m: nat)
    requires Serves(sha, a, prior) && n < |a.Lacking(prior)|
    ensures n < m <= |a.Lacking(prior)|
    ensures ReplyTo(a.current, a.retained, a.entries, a.Asked(prior), SessionAt(a, prior, n).cursor, a.desired, a.octets) ==
              Ok(Page(SegmentOffer(a, prior, n, m)))
  {
    m := SegmentFollows(sha, a, prior, n);
    LackingIsOfferable(sha, a, prior);
    CursorResumes(a.Mode(prior), a.Lacking(prior), n);
  }

  /**
   The first answer is a page exactly when something is lacking; with nothing lacking the authority refuses, summaries
   differing or not.
   */
  lemma PageOnlyWhenLacking(sha: Hash, a: Authority, prior: Summary)
    requires Serves(sha, a, prior)
    ensures var reply := ReplyTo(a.current, a.retained, a.entries, a.Asked(prior), None, a.desired, a.octets);
            && (reply.Ok? && reply.value.Page? <==> a.Lacking(prior) != [])
            && (a.Lacking(prior) == [] ==> reply == Err(CursorInvalid))
  {
    if a.Lacking(prior) != [] {
      var m := AuthorityAnswers(sha, a, prior, 0);
    }
  }

  lemma SegmentOfferable(current: Summary, mode: OfferMode, base: u64, s: seq<Entry>, n: nat)
    requires Offerable(current, mode, base, s) && n < |s|
    ensures Offerable(current, mode, base, s[n..])
  {
    assert s[n..|s|] == s[n..];
    SegmentIsGood(mode, s, n, |s|, current.generation);
  }

  lemma {:induction false} SegmentPushes(s: seq<Entry>, generation: nat, n: nat, m: nat)
    requires GoodEntries(s, generation) && n <= m <= |s|
    ensures Push(s[..n], s[n..m]) == (s[..m], true)
    decreases m - n
  {
    if n < m {
      assert s[n..m][0] == s[n] && s[n..m][1..] == s[n + 1..m];
      assert s[..n] + [s[n]] == s[..n + 1];
      assert !Clashes(s[..n], s[n]);
      SegmentPushes(s, generation, n + 1, m);
    }
  }

  lemma CursorRank(mode: OfferMode, x: Entry, y: Entry)
    requires Before(mode, x, y)
    ensures CursorAt(mode, x) != CursorAt(mode, y)
    ensures Advances(CursorAt(mode, x), CursorAt(mode, y))
  {
    RankTotal(mode, x, y);
  }

  /** The segment's cursors lie beyond the cursor of `n` accepted entries. */
  lemma SegmentIsNext(a: Authority, prior: Summary, n: nat, m: nat)
    requires Offerable(a.current, a.Mode(prior), a.Base(prior), a.Lacking(prior))
    requires n < m <= |a.Lacking(prior)| && m - n <= MAX_OFFER_DESCRIPTORS
    ensures var offer, cursor := SegmentOffer(a, prior, n, m), SessionAt(a, prior, n).cursor;
            && ValidateOffer(offer).Pass?
            && (cursor.Some? ==> cursor.value != offer.lastCursor && Advances(cursor.value, offer.firstCursor))
  {
    var s, mode := a.Lacking(prior), a.Mode(prior);
    SegmentOffers(a.current, mode, a.Base(prior), s, n, m, m < |s|);
    if n > 0 {
      CursorRank(mode, s[n - 1], s[n]);
      CursorRank(mode, s[n - 1], s[m - 1]);
    }
  }

  /** The receiver at `n` commits the segment from `n` to `m` and stands at `m`. */
  lemma ReceiverCommits(sha: Hash, a: Authority, prior: Summary, retained: seq<Entry>, st: State, n: nat, m: nat)
    requires Serves(sha, a, prior) && At(a, prior, retained, st, n) && n < m <= |a.Lacking(prior)|
    requires m - n <= MAX_OFFER_DESCRIPTORS
    ensures var plan := PlanPage(st, SegmentOffer(a, prior, n, m));
            plan.saves && plan.reply == Ok(Done) && At(a, prior, retained, plan.state, m) && plan.state.sequence == st.sequence
  {
    hide ValidateOffer, SingleFits, GoodEntries, Push, Advances;
    LackingIsOfferable(sha, a, prior);
    SegmentPushes(a.Lacking(prior), a.current.generation, n, m);
    SegmentIsNext(a, prior, n, m);
  }

  // ---- The loop ----

  /** Reopen, ask with the durable checkpoint or with none, and with the durable cursor, commit the page. */
  function Round(sha: Hash, a: Authority, img: Image): Option<(Image, Offer)> {
    var id := a.current.collectionId;
    var st := Open(img);
    if st.Err? || id !in st.value.collections || st.value.collections[id].session.None? then
      None
    else
      var c := st.value.collections[id];
      match ReplyTo(a.current, a.retained, a.entries, a.Asked(c.checkpoint), c.session.value.cursor, a.desired, a.octets)
      case Ok(Page(offer)) =>
        var e := Perform(sha, st.value, img, CommitOfferPage(offer));
        if e.reply.Ok? && e.trace != [] then Some((e.trace[|e.trace| - 1], offer)) else None
      case _ => None
  }

  type Exchange = Image -> Option<(Image, Offer)>

  function ExchangeWith(sha: Hash, a: Authority): Exchange {
    img => Round(sha, a, img)
  }

  /** At most `rounds` rounds, stopping behind the page that says no other follows. */
  function Rounds(exchange: Exchange, img: Image, rounds: nat): (Image, seq<Offer>)
    decreases rounds
  {
    if rounds == 0 then
      (img, [])
    else
      match exchange(img)
      case None => (img, [])
      case Some((img', offer)) =>
        if !offer.more then
          (img', [offer])
        else
          var (last, offers) := Rounds(exchange, img', rounds - 1);
          (last, [offer] + offers)
  }

  function Descriptors(offers: seq<Offer>): seq<Entry> {
    if offers == [] then [] else offers[0].descriptors + Descriptors(offers[1..])
  }

  lemma AnswerIsBounded(a: Authority, prior: Summary, cursor: Option<Cursor>, offer: Offer)
    requires ReplyTo(a.current, a.retained, a.entries, a.Asked(prior), cursor, a.desired, a.octets) == Ok(Page(offer))
    ensures |offer.descriptors| <= MAX_OFFER_DESCRIPTORS
  {
    ValidOfferMeans(offer);
  }

  /**
   The disk holds, durably, a session with exactly the first `n` lacking entries, and has saves left for the others;
   since `base` saves there was at most one for each of them.
   */
  ghost predicate StandsAt(a: Authority, prior: Summary, retained: seq<Entry>, base: nat, img: Image, n: nat) {
    && Open(img).Ok?
    && var st := Open(img).value;
       && LastSaved(st, img) && At(a, prior, retained, st, n)
       && 0 < st.sequence <= base + n && base + |a.Lacking(prior)| < U64_MAX
  }

  ghost predicate SegmentTaken(s: seq<Entry>, n: nat, m: nat, offer: Offer) {
    n < m <= |s| && offer.descriptors == s[n..m] && (offer.more <==> m < |s|)
  }

  lemma PageIsCommitted(sha: Hash, st: State, img: Image, offer: Offer)
    requires LastSaved(st, img) && 0 < st.sequence < U64_MAX
    requires PlanPage(st, offer).saves && PlanPage(st, offer).reply == Ok(Done) && PlanPage(st, offer).state.sequence == st.sequence
    ensures var e := Perform(sha, st, img, CommitOfferPage(offer));
            && e.reply == Ok(Done) && |e.trace| == 2
            && Open(e.trace[1]) == Ok(e.state) && LastSaved(e.state, e.trace[1])
            && e.state == PlanPage(st, offer).state.(sequence := st.sequence + 1)
  {
    SaveIsAtomic(st, PlanPage(st, offer).state, img, Done);
  }

  lemma RoundAdvances(sha: Hash, a: Authority, prior: Summary, retained: seq<Entry>, base: nat, img: Image, n: nat) returns (m: nat)
    requires Serves(sha, a, prior) && StandsAt(a, prior, retained, base, img, n) && n < |a.Lacking(prior)|
    ensures Round(sha, a, img).Some?
    ensures SegmentTaken(a.Lacking(prior), n, m, Round(sha, a, img).value.1)
    ensures StandsAt(a, prior, retained, base, Round(sha, a, img).value.0, m)
  {
    m := AuthorityAnswers(sha, a, prior, n);
    var cursor := SessionAt(a, prior, n).cursor;
    var offer := ReplyTo(a.current, a.retained, a.entries, a.Asked(prior), cursor, a.desired, a.octets).value.offer;
    AnswerIsBounded(a, prior, cursor, offer);
    var st := Open(img).value;
    ReceiverCommits(sha, a, prior, retained, st, n, m);
    PageIsCommitted(sha, st, img, offer);
  }

  /** Every exchange from a standing of fewer than all entries takes the next segment of them. */
  ghost predicate Steps(exchange: Exchange, s: seq<Entry>, stands: (Image, nat) -> bool) {
    forall img: Image, n: nat | stands(img, n) && n < |s| :: exchange(img).Some? && TakesSegment(exchange(img).value, s, n, stands)
  }

  ghost predicate TakesSegment(taken: (Image, Offer), s: seq<Entry>, n: nat, stands: (Image, nat) -> bool) {
    exists m: nat :: SegmentTaken(s, n, m, taken.1) && stands(taken.0, m)
  }

  lemma DescriptorsCons(offer: Offer, offers: seq<Offer>, s: seq<Entry>, n: nat, m: nat)
    requires SegmentTaken(s, n, m, offer) && Descriptors(offers) == s[m..]
    ensures Descriptors([offer] + offers) == s[n..]
  {
    assert ([offer] + offers)[1..] == offers;
    assert s[n..m] + s[m..] == s[n..];
  }

  lemma {:induction false} RoundsComplete(exchange: Exchange, s: seq<Entry>, stands: (Image, nat) -> bool, img: Image, n: nat, rounds: nat)
    requires Steps(exchange, s, stands) && stands(img, n) && n < |s| <= n + rounds
    ensures var (img', offers) := Rounds(exchange, img, rounds);
            && 1 <= |offers| <= rounds
            && Descriptors(offers) == s[n..]
            && stands(img', |s|)
    decreases rounds
  {
    var (img', offer) := exchange(img).value;
    var m: nat :| SegmentTaken(s, n, m, offer) && stands(img', m);
    if m == |s| {
      DescriptorsCons(offer, [], s, n, m);
      assert [offer] + [] == [offer];
    } else {
      RoundsComplete(exchange, s, stands, img', m, rounds - 1);
      DescriptorsCons(offer, Rounds(exchange, img', rounds - 1).1, s, n, m);
    }
  }

  // ---- Finishing ----

  /** The receiver's retained entries are the authority's up to the prior generation (nothing is asked of them in full mode). */
  ghost predicate Consistent(a: Authority, prior: Summary, retained: seq<Entry>) {
    a.Mode(prior) == Delta ==> multiset(retained) == multiset(UpTo(prior.generation, a.entries))
  }

  lemma AssembledIsCollection(sha: Hash, a: Authority, prior: Summary, retained: seq<Entry>)
    requires Serves(sha, a, prior) && Consistent(a, prior, retained)
    ensures multiset((if a.Mode(prior) == Delta then retained else []) + a.Lacking(prior)) == multiset(a.entries)
  {
    MissingIsStrict(a.current, a.Mode(prior), a.Base(prior), a.entries);
    if a.Mode(prior) == Delta {
      forall e
        ensures multiset(retained + a.Lacking(prior))[e] == multiset(a.entries)[e]
      {
        UpToMembers(prior.generation, a.entries, e);
        NewerMembers(prior.generation, a.entries, e);
      }
    } else {
      assert [] + a.Lacking(prior) == a.Lacking(prior);
    }
  }

  /** With every lacking entry accepted, finishing passes the digest gate and installs the authority's checkpoint over its entries. */
  lemma FinishInstallsCollection(sha: Hash, a: Authority, prior: Summary, retained: seq<Entry>, st: State)
    requires Serves(sha, a, prior) && a.Lacking(prior) != []
    requires Consistent(a, prior, retained) && At(a, prior, retained, st, |a.Lacking(prior)|)
    ensures var plan := PlanFinish(sha, st, a.current.collectionId);
            var entries := (if a.Mode(prior) == Delta then retained else []) + a.Lacking(prior);
            && plan.saves && plan.reply == Ok(Done)
            && plan.state == WithCollection(st, a.current.collectionId, Collection(a.current, entries, None))
            && multiset(entries) == multiset(a.entries)
  {
    AssembledIsCollection(sha, a, prior, retained);
    var entries := (if a.Mode(prior) == Delta then retained else []) + a.Lacking(prior);
    var c := st.collections[a.current.collectionId];
    assert c.session.value.accepted == a.Lacking(prior);
    assert Assembled(c) == entries;
    CheckpointByMembers(sha, a.current.collectionId, a.current.generation, entries, a.entries);
  }

  /** What finishing on this disk leaves: the authority's checkpoint over exactly its entries. */
  ghost predicate FinishInstalls(sha: Hash, a: Authority, img: Image) {
    && Open(img).Ok?
    && var e := Perform(sha, Open(img).value, img, FinishReconciliation(a.current.collectionId));
       && e.reply == Ok(Done) && |e.trace| == 2
       && Open(e.trace[1]) == Ok(e.state) && LastSaved(e.state, e.trace[1]) && e.state.sequence == Open(img).value.sequence + 1
       && a.current.collectionId in e.state.collections
       && var c := e.state.collections[a.current.collectionId];
          c.checkpoint == a.current && multiset(c.retained) == multiset(a.entries) && c.session.None?
  }

  lemma StandingFinishes(sha: Hash, a: Authority, prior: Summary, retained: seq<Entry>, base: nat, img: Image)
    requires Serves(sha, a, prior) && a.Lacking(prior) != []
    requires Consistent(a, prior, retained) && StandsAt(a, prior, retained, base, img, |a.Lacking(prior)|)
    ensures FinishInstalls(sha, a, img)
  {
    var st := Open(img).value;
    FinishInstallsCollection(sha, a, prior, retained, st);
    var plan := PlanFinish(sha, st, a.current.collectionId);
    SaveIsAtomic(st, plan.state, img, Done);
  }

  /**
   From a begun reconciliation, asking and committing with a reopening before every page ends within as many pages as
   entries are missing, offers each missing entry exactly once and in order, and the finish installs exactly the target.
   */
  lemma PagingInstallsTarget(sha: Hash, a: Authority, prior: Summary, retained: seq<Entry>, base: nat, img: Image)
    requires Serves(sha, a, prior) && a.Lacking(prior) != []
    requires Consistent(a, prior, retained) && StandsAt(a, prior, retained, base, img, 0)
    ensures var (img', offers) := Rounds(ExchangeWith(sha, a), img, |a.Lacking(prior)|);
            && 1 <= |offers| <= |a.Lacking(prior)|
            && Descriptors(offers) == a.Lacking(prior)
            && Strict(a.Mode(prior), Descriptors(offers))
            && FinishInstalls(sha, a, img') && Open(img').value.sequence <= base + |a.Lacking(prior)|
  {
    var s := a.Lacking(prior);
    var stands := (i: Image, n: nat) => StandsAt(a, prior, retained, base, i, n);
    forall i: Image, n: nat | stands(i, n) && n < |s|
      ensures ExchangeWith(sha, a)(i).Some? && TakesSegment(ExchangeWith(sha, a)(i).value, s, n, stands)
    {
      var m := RoundAdvances(sha, a, prior, retained, base, i, n);
    }
    RoundsComplete(ExchangeWith(sha, a), s, stands, img, 0, |s|);
    assert s[0..] == s;
    StandingFinishes(sha, a, prior, retained, base, Rounds(ExchangeWith(sha, a), img, |s|).0);
    MissingIsStrict(a.current, a.Mode(prior), a.Base(prior), a.entries);
  }

  // ---- Growing authorities ----

  /** Beginning from an installed checkpoint towards the authority's stands at no entry. */
  lemma BeginStands(sha: Hash, a: Authority, prior: Summary, st: State, img: Image)
    requires Serves(sha, a, prior) && LastSaved(st, img) && Installed(st, prior)
    requires 0 < st.sequence && st.sequence + 1 + |a.Lacking(prior)| < U64_MAX
    ensures var e := Perform(sha, st, img, BeginReconciliation(prior, a.current, a.Mode(prior)));
            && e.reply == Ok(Done) && |e.trace| == 2
            && StandsAt(a, prior, st.collections[prior.collectionId].retained, st.sequence + 1, e.trace[1], 0)
  {
    hide CollectionCheckpoint, WellFormed, SingleFits;
    var plan := PlanBegin(st, prior, a.current, a.Mode(prior));
    SaveIsAtomic(st, plan.state, img, Done);
  }

  /** The authority gained entries, all of them later than what it had. */
  ghost predicate Grew(a: Authority, b: Authority) {
    && a.entries <= b.entries && |a.entries| < |b.entries|
    && (forall e | e in a.entries :: e.sequence <= a.current.generation)
    && (forall i | |a.entries| <= i < |b.entries| :: b.entries[i].sequence > a.current.generation)
  }

  lemma {:induction false} UpToGrown(generation: nat, early: seq<Entry>, late: seq<Entry>)
    requires (forall e | e in early :: e.sequence <= generation) && (forall e | e in late :: e.sequence > generation)
    ensures UpTo(generation, early + late) == early && Newer(generation, early + late) == late
    decreases |early| + |late|
  {
    if early != [] {
      assert (early + late)[1..] == early[1..] + late;
      UpToGrown(generation, early[1..], late);
      assert [early[0]] + early[1..] == early;
    } else if late != [] {
      assert early + late == late && early + late[1..] == late[1..];
      UpToGrown(generation, early, late[1..]);
      assert [late[0]] + late[1..] == late;
    } else {
      assert early + late == [];
    }
  }

  /** A receiver that holds the entries of an authority is a consistent base for what it grew into, and lacks something of it. */
  lemma GrownIsConsistent(a: Authority, b: Authority, retained: seq<Entry>)
    requires Grew(a, b) && multiset(retained) == multiset(a.entries)
    ensures Consistent(b, a.current, retained) && b.Lacking(a.current) != []
  {
    var late := b.entries[|a.entries|..];
    assert b.entries == a.entries + late;
    forall e | e in late
      ensures e.sequence > a.current.generation
    {
      var i :| 0 <= i < |late| && late[i] == e;
      assert b.entries[|a.entries| + i] == e;
    }
    UpToGrown(a.current.generation, a.entries, late);
    var lacking := if b.Mode(a.current) == Delta then late else b.entries;
    SortSorts(b.Mode(a.current), lacking);
    assert lacking[0] in multiset(lacking);
    assert b.Lacking(a.current) == Sort(b.Mode(a.current), lacking);
  }

  /** The receiver's disk holds the authority's collection, installed, and has taken no more than so many saves. */
  ghost predicate Holds(a: Authority, img: Image, saves: nat) {
    && Open(img).Ok?
    && var st := Open(img).value;
       && LastSaved(st, img) && 0 < st.sequence <= saves && Installed(st, a.current)
       && multiset(st.collections[a.current.collectionId].retained) == multiset(a.entries)
  }

  /** Open, begin, page with a reopening before every page, and finish. */
  function Sync(sha: Hash, a: Authority, img: Image): Option<Image> {
    var id := a.current.collectionId;
    var st := Open(img);
    if st.Err? || id !in st.value.collections then
      None
    else
      var prior := st.value.collections[id].checkpoint;
      var begun := Perform(sha, st.value, img, BeginReconciliation(prior, a.current, a.Mode(prior)));
      if begun.reply.Err? || begun.trace == [] then
        None
      else
        var paged := Rounds(ExchangeWith(sha, a), begun.trace[|begun.trace| - 1], |a.Lacking(prior)|).0;
        if Open(paged).Err? then
          None
        else
          var finished := Perform(sha, Open(paged).value, paged, FinishReconciliation(id));
          if finished.reply.Err? || finished.trace == [] then None else Some(finished.trace[|finished.trace| - 1])
  }

  /** One growth: beginning, paging and finishing leaves the receiver with the grown collection. */
  lemma SyncFollows(sha: Hash, a: Authority, b: Authority, img: Image, saves: nat)
    requires Holds(a, img, saves) && Grew(a, b) && Serves(sha, b, a.current) && saves + |b.Lacking(a.current)| + 2 < U64_MAX
    ensures Sync(sha, b, img).Some? && Holds(b, Sync(sha, b, img).value, saves + |b.Lacking(a.current)| + 2)
  {
    hide CollectionCheckpoint, WellFormed, SingleFits, Perform, Rounds, Consistent, Authority.Lacking;
    var st := Open(img).value;
    var retained := st.collections[a.current.collectionId].retained;
    BeginStands(sha, b, a.current, st, img);
    var begun := Perform(sha, st, img, BeginReconciliation(a.current, b.current, b.Mode(a.current)));
    GrownIsConsistent(a, b, retained);
    PagingInstallsTarget(sha, b, a.current, retained, st.sequence + 1, begun.trace[1]);
  }

  /** All authorities of a series in turn. */
  function SyncAll(sha: Hash, series: seq<Authority>, img: Image): Option<Image>
    decreases |series|
  {
    if series == [] then
      Some(img)
    else
      var next := Sync(sha, series[0], img);
      if next.None? then None else SyncAll(sha, series[1..], next.value)
  }

  /** Each authority of the series grew out of the one before, and can serve what was lacking there. */
  ghost predicate GrowingSeries(sha: Hash, a: Authority, series: seq<Authority>)
    decreases |series|
  {
    series != [] ==> Grew(a, series[0]) && Serves(sha, series[0], a.current) && GrowingSeries(sha, series[0], series[1..])
  }

  /** The saves following a series takes. */
  ghost function SavesFor(a: Authority, series: seq<Authority>): nat
    decreases |series|
  {
    if series == [] then 0 else |series[0].Lacking(a.current)| + 2 + SavesFor(series[0], series[1..])
  }

  /**
   However often the collection grows, in delta or full mode each time, asked with the receiver's checkpoint or with none, the receiver
   follows it to the end.
   */
  lemma {:induction false} SeriesIsFollowed(sha: Hash, a: Authority, series: seq<Authority>, img: Image, saves: nat)
    requires Holds(a, img, saves) && GrowingSeries(sha, a, series) && saves + SavesFor(a, series) < U64_MAX
    ensures SyncAll(sha, series, img).Some?
    ensures Holds(if series == [] then a else series[|series| - 1], SyncAll(sha, series, img).value, saves + SavesFor(a, series))
    decreases |series|
  {
    hide Sync, Holds, Grew, Serves, Authority.Lacking;
    if series != [] {
      SyncFollows(sha, a, series[0], img, saves);
      SeriesIsFollowed(sha, series[0], series[1..], Sync(sha, series[0], img).value, saves + |series[0].Lacking(a.current)| + 2);
    }
  }

  /** The disk after a collection was installed, empty, on an empty disk. */
  function Initialized(sha: Hash, checkpoint: Summary): Image {
    var e := Perform(sha, INITIAL, EMPTY_DISK, InitializeCollection(checkpoint));
    if e.trace == [] then EMPTY_DISK else e.trace[|e.trace| - 1]
  }

  lemma InitializedHolds(sha: Hash, start: Authority)
    requires start.entries == []
    ensures Holds(start, Initialized(sha, start.current), 1)
  {
    var plan := PlanOf(sha, INITIAL, InitializeCollection(start.current));
    SaveIsAtomic(INITIAL, plan.state, EMPTY_DISK, Done);
  }

  /** A new receiver, with nothing but the checkpoint it starts from, follows a growing collection from its first entry to the end. */
  lemma NewReceiverFollows(sha: Hash, start: Authority, series: seq<Authority>)
    requires start.entries == [] && GrowingSeries(sha, start, series) && 1 + SavesFor(start, series) < U64_MAX
    ensures SyncAll(sha, series, Initialized(sha, start.current)).Some?
    ensures Holds(if series == [] then start else series[|series| - 1], SyncAll(sha, series, Initialized(sha, start.current)).value,
                  1 + SavesFor(start, series))
  {
    hide SyncAll, GrowingSeries, SavesFor, Holds;
    InitializedHolds(sha, start);
    SeriesIsFollowed(sha, start, series, Initialized(sha, start.current), 1);
  }
}
