/** The authority's side of anti-entropy: equal, a delta page after a known checkpoint, or a bounded full page. */
module Reconciliation {
  import opened Wrappers
  import opened Octets
  import opened Representation
  import opened Operations
  import opened EntryOrder
  import opened B1Record

  datatype Reply = Equal(summary: Summary) | Page(offer: Offer)

  function Newer(generation: nat, entries: seq<Entry>): seq<Entry> {
    if entries == [] then []
    else (if entries[0].sequence > generation then [entries[0]] else []) + Newer(generation, entries[1..])
  }

  /** Whether an entry still lies beyond the receiver's cursor. */
  predicate Beyond(mode: OfferMode, cursor: Option<Cursor>, e: Entry) {
    match cursor
    case None => true
    case Some(DeltaCursor(sequence)) => mode == Delta && e.sequence > sequence
    case Some(FullCursor(key)) => mode == Full && KeyLess(key, e.Key())
  }

  function Retain(mode: OfferMode, cursor: Option<Cursor>, s: seq<Entry>): seq<Entry> {
    if s == [] then [] else (if Beyond(mode, cursor, s[0]) then [s[0]] else []) + Retain(mode, cursor, s[1..])
  }

  /** What the receiver lacks, in the order pages offer it. */
  function Missing(mode: OfferMode, base: u64, entries: seq<Entry>): seq<Entry> {
    Sort(mode, if mode == Delta then Newer(base, entries) else entries)
  }

  function MakeOffer(current: Summary, mode: OfferMode, base: u64, descriptors: seq<Entry>, more: bool): Result<Offer, Error> {
    if descriptors == [] then
      Err(CursorInvalid)
    else
      var offer := Offer(current.collectionId, mode, base, current.generation, CursorAt(mode, descriptors[0]),
                         CursorAt(mode, descriptors[|descriptors| - 1]), descriptors, more);
      var valid := ValidateOffer(offer);
      if valid.Fail? then Err(valid.error) else Ok(offer)
  }

  function OfferSize(offer: Offer): Result<nat, Error> {
    ExactSize(Record(OfferOp(offer), []))
  }

  /** How many candidates go on the page, when `n` already do: one more as long as the page stays within the limit. */
  function PageLength(current: Summary, mode: OfferMode, base: u64, candidates: seq<Entry>, limit: nat, octets: nat, n: nat): Result<nat, Error>
    requires n <= limit <= |candidates|
    decreases limit - n
  {
    if n == limit then
      Ok(n)
    else
      var offer :- MakeOffer(current, mode, base, candidates[..n + 1], true);
      var size :- OfferSize(offer);
      if size > octets then Ok(n) else PageLength(current, mode, base, candidates, limit, octets, n + 1)
  }

  function NextPage(current: Summary, mode: OfferMode, base: u64, candidates: seq<Entry>, desired: nat, octets: nat): Result<Offer, Error> {
    if candidates == [] then
      Err(CursorInvalid)
    else
      var limit := Min(desired, |candidates|);
      var n :- PageLength(current, mode, base, candidates, limit, octets, 0);
      PageLengthInRange(current, mode, base, candidates, limit, octets, 0);
      if n == 0 then Err(RecordTooLarge) else MakeOffer(current, mode, base, candidates[..n], n < |candidates|)
  }

  function ReplyTo(current: Summary, retained: seq<Summary>, entries: seq<Entry>, receiver: Option<Summary>, cursor: Option<Cursor>,
                   desired: nat, octets: nat): Result<Reply, Error>
  {
    if receiver == Some(current) then
      Ok(Equal(current))
    else if desired == 0 || desired > MAX_OFFER_DESCRIPTORS then
      Err(Error.LimitExceeded("page entry limit"))
    else
      var known := receiver.Some? && receiver.value in retained;
      var mode := if known then Delta else Full;
      var base := if known then receiver.value.generation else 0;
      var page :- NextPage(current, mode, base, Retain(mode, cursor, Missing(mode, base, entries)), desired, octets);
      Ok(Page(page))
  }

  lemma {:induction false} PageLengthInRange(current: Summary, mode: OfferMode, base: u64, candidates: seq<Entry>, limit: nat, octets: nat, n: nat)
    requires n <= limit <= |candidates| && PageLength(current, mode, base, candidates, limit, octets, n).Ok?
    ensures n <= PageLength(current, mode, base, candidates, limit, octets, n).value <= limit
    decreases limit - n
  {
    if n < limit {
      var size := OfferSize(MakeOffer(current, mode, base, candidates[..n + 1], true).value).value;
      if size <= octets {
        PageLengthInRange(current, mode, base, candidates, limit, octets, n + 1);
      }
    }
  }

  /** The offer of the first `n` candidates. */
  function FirstOffer(current: Summary, mode: OfferMode, base: u64, candidates: seq<Entry>, n: nat, more: bool): Result<Offer, Error>
    requires n <= |candidates|
  {
    MakeOffer(current, mode, base, candidates[..n], more)
  }

  ghost predicate TooLarge(current: Summary, mode: OfferMode, base: u64, candidates: seq<Entry>, n: nat, octets: nat)
    requires n <= |candidates|
  {
    var offer := FirstOffer(current, mode, base, candidates, n, true);
    offer.Ok? && OfferSize(offer.value).Ok? && OfferSize(offer.value).value > octets
  }

  lemma {:induction false} PageLengthIsGreedy(current: Summary, mode: OfferMode, base: u64, candidates: seq<Entry>, limit: nat, octets: nat, n: nat)
    requires n <= limit <= |candidates| && PageLength(current, mode, base, candidates, limit, octets, n).Ok?
    ensures var k := PageLength(current, mode, base, candidates, limit, octets, n).value;
            && n <= k <= limit
            && (k < limit ==> TooLarge(current, mode, base, candidates, k + 1, octets))
            && (k > n ==> var offer := FirstOffer(current, mode, base, candidates, k, true);
                          offer.Ok? && OfferSize(offer.value).Ok? && OfferSize(offer.value).value <= octets)
    decreases limit - n
  {
    hide ValidateOffer, ExactSize;
    if n < limit {
      var size := OfferSize(MakeOffer(current, mode, base, candidates[..n + 1], true).value).value;
      if size <= octets {
        PageLengthIsGreedy(current, mode, base, candidates, limit, octets, n + 1);
      }
    }
  }

  lemma MoreTakesNoOctet(o: Offer, more: bool)
    ensures OfferSize(o.(more := more)) == OfferSize(o)
  {
  }

  /** A page stays within its octets, and holds all it may: the entry limit, every candidate, or one more would not fit. */
  lemma PageIsGreedy(current: Summary, mode: OfferMode, base: u64, candidates: seq<Entry>, desired: nat, octets: nat)
    requires NextPage(current, mode, base, candidates, desired, octets).Ok?
    ensures var page := NextPage(current, mode, base, candidates, desired, octets).value;
            var k := |page.descriptors|;
            && 1 <= k <= |candidates| && k <= desired && page.descriptors == candidates[..k] && (page.more <==> k < |candidates|)
            && OfferSize(page).Ok? && OfferSize(page).value <= octets
            && (k == desired || k == |candidates| || TooLarge(current, mode, base, candidates, k + 1, octets))
  {
    hide ValidateOffer, OfferSize;
    var limit := Min(desired, |candidates|);
    PageLengthIsGreedy(current, mode, base, candidates, limit, octets, 0);
    var k := PageLength(current, mode, base, candidates, limit, octets, 0).value;
    var full := FirstOffer(current, mode, base, candidates, k, true).value;
    var page := NextPage(current, mode, base, candidates, desired, octets).value;
    assert page == full.(more := page.more);
    MoreTakesNoOctet(full, page.more);
  }

  /** Where not even the first candidate fits, no page is made. */
  lemma NothingFits(current: Summary, mode: OfferMode, base: u64, candidates: seq<Entry>, desired: nat, octets: nat)
    requires candidates != [] && desired >= 1 && TooLarge(current, mode, base, candidates, 1, octets)
    ensures NextPage(current, mode, base, candidates, desired, octets) == Err(RecordTooLarge)
  {
    hide ValidateOffer, ExactSize;
    assert PageLength(current, mode, base, candidates, Min(desired, |candidates|), octets, 0) == Ok(0);
  }

  // ---- What an answer says ----

  /** An entry the receiver lacks, as far as the authority can know, beyond the receiver's cursor. */
  predicate Lacked(mode: OfferMode, base: u64, cursor: Option<Cursor>, entries: seq<Entry>, e: Entry) {
    e in entries && (mode == Delta ==> e.sequence > base) && Beyond(mode, cursor, e)
  }

  lemma {:induction false} RetainMembers(mode: OfferMode, cursor: Option<Cursor>, s: seq<Entry>)
    ensures forall e :: e in Retain(mode, cursor, s) <==> e in s && Beyond(mode, cursor, e)
    ensures Ordered(mode, s) ==> Ordered(mode, Retain(mode, cursor, s))
  {
    if s != [] {
      hide Beyond;
      RetainMembers(mode, cursor, s[1..]);
      assert s == [s[0]] + s[1..];
      if Ordered(mode, s) {
        assert Ordered(mode, s[1..]);
        forall y | y in Retain(mode, cursor, s[1..])
          ensures !Before(mode, y, s[0])
        {
          var i :| 0 <= i < |s[1..]| && s[1..][i] == y;
          assert s[i + 1] == y;
        }
        OrderedCons(mode, s[0], Retain(mode, cursor, s[1..]));
      }
    }
  }

  lemma CandidatesMean(mode: OfferMode, base: u64, cursor: Option<Cursor>, entries: seq<Entry>)
    ensures var candidates := Retain(mode, cursor, Missing(mode, base, entries));
            Ordered(mode, candidates) && forall e :: e in candidates <==> Lacked(mode, base, cursor, entries, e)
  {
    var s := if mode == Delta then Newer(base, entries) else entries;
    SortSorts(mode, s);
    RetainMembers(mode, cursor, Sort(mode, s));
    forall e
      ensures e in Sort(mode, s) <==> e in entries && (mode == Delta ==> e.sequence > base)
    {
      NewerMembers(base, entries, e);
      assert e in Sort(mode, s) <==> e in multiset(Sort(mode, s));
      assert e in s <==> e in multiset(s);
      assert e in entries <==> e in multiset(entries);
    }
  }

  /** Entries of a first part of candidates in order come before, or at the rank of, all the others. */
  lemma FirstPartFirst(mode: OfferMode, candidates: seq<Entry>, k: nat, e: Entry)
    requires Ordered(mode, candidates) && 0 < k <= |candidates| && e in candidates
    ensures e in candidates[..k] || (k < |candidates| && !Before(mode, e, candidates[k - 1]))
  {
    var i :| 0 <= i < |candidates| && candidates[i] == e;
    if i < k {
      assert candidates[..k][i] == e;
    }
  }

  /**
   Equality is answered exactly to a receiver that stands at the current checkpoint. Any other page is a delta on the receiver's generation exactly
   when its checkpoint is retained, and a full one for no or an unknown checkpoint; it holds only what is lacking beyond the cursor, the first of it in
   the mode's order, and announces more exactly when something lacking is not on it.
   */
  lemma ReplyMeans(current: Summary, retained: seq<Summary>, entries: seq<Entry>, receiver: Option<Summary>, cursor: Option<Cursor>,
                   desired: nat, octets: nat)
    ensures var r := ReplyTo(current, retained, entries, receiver, cursor, desired, octets);
            var known := receiver.Some? && receiver.value in retained;
            var mode, base := if known then Delta else Full, if known then receiver.value.generation else 0;
            if receiver == Some(current) then
              r == Ok(Equal(current))
            else if desired == 0 || desired > MAX_OFFER_DESCRIPTORS then
              r == Err(Error.LimitExceeded("page entry limit"))
            else if !(exists e :: Lacked(mode, base, cursor, entries, e)) then
              r == Err(CursorInvalid)
            else
              r.Ok? ==> r.value.Page? && PageMeans(current, mode, base, cursor, entries, desired, octets, r.value.offer)
  {
    hide PageMeans;
    var known := receiver.Some? && receiver.value in retained;
    var mode, base := if known then Delta else Full, if known then receiver.value.generation else 0;
    var candidates := Retain(mode, cursor, Missing(mode, base, entries));
    CandidatesMean(mode, base, cursor, entries);
    assert candidates != [] ==> Lacked(mode, base, cursor, entries, candidates[0]);
    if NextPage(current, mode, base, candidates, desired, octets).Ok? {
      NextPageMeans(current, mode, base, cursor, entries, desired, octets);
    }
  }

  lemma ReplyIsFramed(current: Summary, retained: seq<Summary>, entries: seq<Entry>, receiver: Option<Summary>, cursor: Option<Cursor>,
                      desired: nat, octets: nat)
    ensures var r := ReplyTo(current, retained, entries, receiver, cursor, desired, octets);
            && (receiver == Some(current) <==> r.Ok? && r.value.Equal?) && (r.Ok? && r.value.Equal? ==> r.value.summary == current)
            && (r.Ok? && r.value.Page? ==>
                  && var offer := r.value.offer;
                     && offer.collectionId == current.collectionId && offer.targetGeneration == current.generation
                     && (offer.mode == Delta <==> receiver.Some? && receiver.value in retained && receiver.value != current)
                     && offer.baseGeneration == if offer.mode == Delta then receiver.value.generation else 0)
  {
    hide ReplyTo, Lacked, ValidateOffer, OfferSize, Retain, Missing;
    ReplyMeans(current, retained, entries, receiver, cursor, desired, octets);
  }

  ghost predicate PageMeans(current: Summary, mode: OfferMode, base: u64, cursor: Option<Cursor>, entries: seq<Entry>, desired: nat, octets: nat,
                            o: Offer)
  {
    && o.collectionId == current.collectionId && o.targetGeneration == current.generation && o.mode == mode && o.baseGeneration == base
    && ValidateOffer(o).Pass? && 1 <= |o.descriptors| <= desired && OfferSize(o).Ok? && OfferSize(o).value <= octets
    && o.firstCursor == CursorAt(mode, o.descriptors[0]) && o.lastCursor == CursorAt(mode, o.descriptors[|o.descriptors| - 1])
    && (forall e | e in o.descriptors :: Lacked(mode, base, cursor, entries, e))
    && (forall e | Lacked(mode, base, cursor, entries, e) ::
          e in o.descriptors || (o.more && !Before(mode, e, o.descriptors[|o.descriptors| - 1])))
    && (o.more ==> |o.descriptors| < |Retain(mode, cursor, Missing(mode, base, entries))|)
  }

  lemma NextPageMeans(current: Summary, mode: OfferMode, base: u64, cursor: Option<Cursor>, entries: seq<Entry>, desired: nat, octets: nat)
    requires NextPage(current, mode, base, Retain(mode, cursor, Missing(mode, base, entries)), desired, octets).Ok?
    ensures PageMeans(current, mode, base, cursor, entries, desired, octets,
                      NextPage(current, mode, base, Retain(mode, cursor, Missing(mode, base, entries)), desired, octets).value)
  {
    hide OfferSize, Lacked, Retain, Missing;
    var candidates := Retain(mode, cursor, Missing(mode, base, entries));
    CandidatesMean(mode, base, cursor, entries);
    PageIsGreedy(current, mode, base, candidates, desired, octets);
    var page := NextPage(current, mode, base, candidates, desired, octets).value;
    var k := |page.descriptors|;
    forall e | Lacked(mode, base, cursor, entries, e)
      ensures e in page.descriptors || (page.more && !Before(mode, e, page.descriptors[k - 1]))
    {
      FirstPartFirst(mode, candidates, k, e);
    }
    forall e | e in page.descriptors
      ensures Lacked(mode, base, cursor, entries, e)
    {
      assert e in candidates;
    }
  }

  /**
   The procedure: candidates are added while the page with one more still fits. Only a receiver that stands at the current checkpoint is told so; only
   one that stands at another retained checkpoint is answered with a delta on it, any other, and one without a checkpoint, with a full page.
   */
  method Reconcile(current: Summary, retained: seq<Summary>, entries: seq<Entry>, receiver: Option<Summary>, cursor: Option<Cursor>,
                   desired: nat, octets: nat) returns (r: Result<Reply, Error>)
    ensures r == ReplyTo(current, retained, entries, receiver, cursor, desired, octets)
    ensures receiver == Some(current) <==> r.Ok? && r.value.Equal?
    ensures r.Ok? && r.value.Equal? ==> r.value.summary == current
    ensures r.Ok? && r.value.Page? ==>
              && var offer := r.value.offer;
                 && offer.collectionId == current.collectionId && offer.targetGeneration == current.generation
                 && (offer.mode == Delta <==> receiver.Some? && receiver.value in retained && receiver.value != current)
                 && offer.baseGeneration == if offer.mode == Delta then receiver.value.generation else 0
  {
    hide PageLength, OfferSize, Retain, Missing, PageMeans, Lacked;
    ReplyIsFramed(current, retained, entries, receiver, cursor, desired, octets);
    if receiver == Some(current) {
      return Ok(Equal(current));
    }
    if desired == 0 || desired > MAX_OFFER_DESCRIPTORS {
      return Err(Error.LimitExceeded("page entry limit"));
    }
    var known := receiver.Some? && receiver.value in retained;
    var mode := if known then Delta else Full;
    var base := if known then receiver.value.generation else 0;
    var candidates := Retain(mode, cursor, Missing(mode, base, entries));
    if candidates == [] {
      return Err(CursorInvalid);
    }
    var page := BuildPage(current, mode, base, candidates, desired, octets);
    r := if page.Ok? then Ok(Page(page.value)) else Err(page.error);
  }

  method BuildPage(current: Summary, mode: OfferMode, base: u64, candidates: seq<Entry>, desired: nat, octets: nat)
    returns (r: Result<Offer, Error>)
    requires candidates != []
    ensures r == NextPage(current, mode, base, candidates, desired, octets)
  {
    hide MakeOffer, OfferSize;
    var limit := Min(desired, |candidates|);
    ghost var length := PageLength(current, mode, base, candidates, limit, octets, 0);
    var selected: seq<Entry> := [];
    var full := false;
    while |selected| < limit && !full
      invariant |selected| <= limit && selected == candidates[..|selected|]
      invariant if full then length == Ok(|selected|)
                else length == PageLength(current, mode, base, candidates, limit, octets, |selected|)
      decreases limit - |selected|, !full
    {
      var tentative := selected + [candidates[|selected|]];
      assert tentative == candidates[..|selected| + 1];
      var offer := MakeOffer(current, mode, base, tentative, true);
      if offer.Err? {
        return Err(offer.error);
      }
      var size := OfferSize(offer.value);
      if size.Err? {
        return Err(size.error);
      }
      if size.value > octets {
        full := true;
      } else {
        selected := tentative;
      }
    }
    if selected == [] {
      return Err(RecordTooLarge);
    }
    r := MakeOffer(current, mode, base, selected, |selected| < |candidates|);
  }

  // ---- What a page is, for a well-formed collection ----

  /** An append-only collection: valid entries, sequences 1..generation, no sequence and no key twice. */
  ghost predicate WellFormed(current: Summary, entries: seq<Entry>) {
    |entries| <= MAX_COLLECTION_ENTRIES && GoodEntries(entries, current.generation)
  }

  lemma {:induction false} NewerMembers(generation: nat, entries: seq<Entry>, e: Entry)
    ensures multiset(Newer(generation, entries))[e] == if e.sequence > generation then multiset(entries)[e] else 0
  {
    if entries != [] {
      NewerMembers(generation, entries[1..], e);
      assert entries == [entries[0]] + entries[1..];
    }
  }

  lemma {:induction false} NewerDistinct(mode: OfferMode, generation: nat, entries: seq<Entry>)
    requires DistinctRanks(mode, entries)
    ensures DistinctRanks(mode, Newer(generation, entries))
    ensures forall e | e in Newer(generation, entries) :: e in entries && e.sequence > generation
  {
    if entries != [] {
      NewerDistinct(mode, generation, entries[1..]);
      var later := Newer(generation, entries[1..]);
      forall e | e in later
        ensures e in entries && !SameRank(mode, entries[0], e)
      {
        var i :| 0 <= i < |entries[1..]| && entries[1..][i] == e;
        assert entries[i + 1] == e;
      }
      var all := Newer(generation, entries);
      forall i, j | 0 <= i < j < |all|
        ensures !SameRank(mode, all[i], all[j])
      {
        if entries[0].sequence > generation {
          assert all[j] == later[j - 1] && later[j - 1] in later;
          assert i > 0 ==> all[i] == later[i - 1];
        }
      }
    }
  }

  /** What is missing is offered in strictly increasing order, each entry once. */
  lemma MissingIsStrict(current: Summary, mode: OfferMode, base: u64, entries: seq<Entry>)
    requires WellFormed(current, entries)
    ensures Strict(mode, Missing(mode, base, entries))
    ensures forall e | e in Missing(mode, base, entries) :: e in entries && (mode == Delta ==> e.sequence > base)
    ensures multiset(Missing(mode, base, entries)) == multiset(if mode == Delta then Newer(base, entries) else entries)
  {
    var s := if mode == Delta then Newer(base, entries) else entries;
    assert DistinctRanks(mode, entries);
    NewerDistinct(mode, base, entries);
    SortByMembers(mode, s, s);
    SortSorts(mode, s);
    forall e | e in Sort(mode, s)
      ensures e in s
    {
      assert e in multiset(Sort(mode, s));
    }
  }

  lemma BeyondCursor(mode: OfferMode, x: Entry, e: Entry)
    ensures Beyond(mode, Some(CursorAt(mode, x)), e) <==> Before(mode, x, e)
  {
  }

  lemma {:induction false} RetainAll(mode: OfferMode, cursor: Option<Cursor>, s: seq<Entry>)
    requires forall e | e in s :: Beyond(mode, cursor, e)
    ensures Retain(mode, cursor, s) == s
  {
    if s != [] {
      RetainAll(mode, cursor, s[1..]);
      assert s == [s[0]] + s[1..];
    }
  }

  lemma {:induction false} RetainNone(mode: OfferMode, cursor: Option<Cursor>, first: seq<Entry>, rest: seq<Entry>)
    requires forall e | e in first :: !Beyond(mode, cursor, e)
    ensures Retain(mode, cursor, first + rest) == Retain(mode, cursor, rest)
  {
    if first == [] {
      assert first + rest == rest;
    } else {
      assert (first + rest)[1..] == first[1..] + rest;
      RetainNone(mode, cursor, first[1..], rest);
    }
  }

  /** A cursor standing on the last of the first `n` missing entries leaves exactly the others. */
  lemma CursorResumes(mode: OfferMode, s: seq<Entry>, n: nat)
    requires Strict(mode, s) && n <= |s|
    ensures Retain(mode, if n == 0 then None else Some(CursorAt(mode, s[n - 1])), s) == s[n..]
  {
    if n == 0 {
      RetainAll(mode, None, s);
    } else {
      var cursor := Some(CursorAt(mode, s[n - 1]));
      forall i | 0 <= i < |s|
        ensures Beyond(mode, cursor, s[i]) <==> i >= n
      {
        BeyondCursor(mode, s[n - 1], s[i]);
        RankTotal(mode, s[n - 1], s[i]);
        if i == n - 1 {
          RankTotal(mode, s[i], s[i]);
        }
      }
      assert s == s[..n] + s[n..];
      RetainNone(mode, cursor, s[..n], s[n..]);
      RetainAll(mode, cursor, s[n..]);
    }
  }

  lemma SegmentIsGood(mode: OfferMode, s: seq<Entry>, from: nat, to: nat, generation: nat)
    requires Strict(mode, s) && GoodEntries(s, generation) && from < to <= |s|
    ensures Ascending(mode, s[from..to]) && GoodEntries(s[from..to], generation)
  {
    var page := s[from..to];
    forall e | e in page
      ensures e in s
    {
    }
    assert forall i | 0 <= i < |page| :: page[i] == s[from + i];
  }

  /** Any segment of what is missing makes a valid offer. */
  lemma SegmentOffers(current: Summary, mode: OfferMode, base: u64, s: seq<Entry>, from: nat, to: nat, more: bool)
    requires Strict(mode, s) && GoodEntries(s, current.generation) && base <= current.generation
    requires from < to <= |s| && to - from <= MAX_OFFER_DESCRIPTORS
    ensures MakeOffer(current, mode, base, s[from..to], more) ==
              Ok(Offer(current.collectionId, mode, base, current.generation, CursorAt(mode, s[from]), CursorAt(mode, s[to - 1]), s[from..to], more))
  {
    SegmentIsGood(mode, s, from, to, current.generation);
    var page := s[from..to];
    assert page[0] == s[from] && page[|page| - 1] == s[to - 1];
    ValidOfferMeans(Offer(current.collectionId, mode, base, current.generation, CursorAt(mode, s[from]), CursorAt(mode, s[to - 1]), page, more));
  }

  lemma MissingIsGood(current: Summary, mode: OfferMode, base: u64, entries: seq<Entry>)
    requires WellFormed(current, entries)
    ensures GoodEntries(Missing(mode, base, entries), current.generation)
  {
    MissingIsStrict(current, mode, base, entries);
    var s := if mode == Delta then Newer(base, entries) else entries;
    var t := Missing(mode, base, entries);
    assert DistinctRanks(Delta, entries) && DistinctRanks(Full, entries);
    NewerDistinct(Delta, base, entries);
    NewerDistinct(Full, base, entries);
    DistinctByMembers(Delta, s, t);
    DistinctByMembers(Full, s, t);
    forall i, j | 0 <= i < j < |t|
      ensures t[i].sequence != t[j].sequence && t[i].Key() != t[j].Key()
    {
      assert !SameRank(Delta, t[i], t[j]) && !SameRank(Full, t[i], t[j]);
    }
  }
}
