/** Collection checkpoints: the digest of a sequence-ordered prefix of an append-only collection. */
module Checkpoints {
  import opened Wrappers
  import opened Octets
  import opened Representation
  import opened Operations
  import opened EntryOrder

  const COLLECTION_DOMAIN: Bytes :=
    [66, 69, 77, 80, 73, 67, 45, 67, 79, 76, 76, 69, 67, 84, 73, 79, 78, 45, 118, 48, 46, 49, 0]

  function UpTo(generation: nat, entries: seq<Entry>): seq<Entry> {
    if entries == [] then []
    else (if entries[0].sequence <= generation then [entries[0]] else []) + UpTo(generation, entries[1..])
  }

  /** The entries at `i` and behind it have one sequence. */
  predicate Twins(s: seq<Entry>, i: nat) {
    i + 1 < |s| && s[i].sequence == s[i + 1].sequence
  }

  predicate AdjacentSequencesEqual(s: seq<Entry>) {
    exists i: nat | i < |s| :: Twins(s, i)
  }

  /** Entries from index `i` on: each valid and with a key no earlier entry has. */
  function CheckKeys(s: seq<Entry>, i: nat): Outcome<Error>
    requires i <= |s|
    decreases |s| - i
  {
    if i == |s| then
      Pass
    else
      var valid := ValidateEntry(s[i]);
      if valid.Fail? then valid
      else if exists j | 0 <= j < i :: s[j].Key() == s[i].Key() then Fail(Error.MetadataConflict)
      else CheckKeys(s, i + 1)
  }

  function KeyImage(k: EntryKey): (r: Bytes)
    ensures |r| == 68
  {
    k.objectId + (BE32(k.partId) + k.representationId)
  }

  /** Keys are ordered as their images. */
  lemma KeyOrderIsImageOrder(a: EntryKey, b: EntryKey)
    ensures KeyLess(a, b) <==> LexLess(KeyImage(a), KeyImage(b))
  {
    hide LexLess, BE32;
    LexConcat(a.objectId, BE32(a.partId) + a.representationId, b.objectId, BE32(b.partId) + b.representationId);
    LexConcat(BE32(a.partId), a.representationId, BE32(b.partId), b.representationId);
    LexOf32(a.partId, b.partId);
    if BE32(a.partId) == BE32(b.partId) {
      BE32Injective(a.partId, b.partId);
    }
  }

  function KeysImage(s: seq<Entry>): Bytes {
    if s == [] then [] else KeyImage(s[0].Key()) + KeysImage(s[1..])
  }

  function CollectionImage(id: Octets32, generation: u64, ordered: seq<Entry>): Bytes
    requires |ordered| <= MAX_COLLECTION_ENTRIES
  {
    COLLECTION_DOMAIN + (id + (BE64(generation) + (BE64(|ordered|) + KeysImage(ordered))))
  }

  lemma {:induction false} UpToShorter(generation: nat, entries: seq<Entry>)
    ensures |UpTo(generation, entries)| <= |entries|
  {
    if entries != [] {
      UpToShorter(generation, entries[1..]);
    }
  }

  function CollectionCheckpoint(sha: Hash, id: Octets32, generation: u64, entries: seq<Entry>): Result<Summary, Error> {
    if |entries| > MAX_COLLECTION_ENTRIES then
      Err(Error.LimitExceeded("collection entries"))
    else
      var ordered := Sort(Delta, UpTo(generation, entries));
      if AdjacentSequencesEqual(ordered) then
        Err(Error.MetadataConflict)
      else
        var keys := CheckKeys(ordered, 0);
        if keys.Fail? then
          Err(keys.error)
        else
          SortSorts(Delta, UpTo(generation, entries));
          UpToShorter(generation, entries);
          Ok(Summary(id, generation, |ordered|, sha(CollectionImage(id, generation, ordered))))
  }

  // ---- The checkpoint depends on the members only ----

  lemma {:induction false} UpToMembers(generation: nat, entries: seq<Entry>, e: Entry)
    ensures multiset(UpTo(generation, entries))[e] == if e.sequence <= generation then multiset(entries)[e] else 0
  {
    if entries != [] {
      UpToMembers(generation, entries[1..], e);
      assert entries == [entries[0]] + entries[1..];
    }
  }

  lemma NeighboursEqual(s: seq<Entry>, i: nat, j: nat)
    requires Ordered(Delta, s) && i < j < |s| && s[i].sequence == s[j].sequence
    ensures s[i].sequence == s[i + 1].sequence
  {
    assert !Before(Delta, s[i + 1], s[i]);
    if i + 1 < j {
      assert !Before(Delta, s[j], s[i + 1]);
    }
  }

  lemma AdjacentMeansNotDistinct(s: seq<Entry>)
    requires Ordered(Delta, s)
    ensures AdjacentSequencesEqual(s) <==> !DistinctRanks(Delta, s)
  {
    if AdjacentSequencesEqual(s) {
      var i: nat :| i < |s| && Twins(s, i);
      assert SameRank(Delta, s[i], s[i + 1]);
    }
    if !DistinctRanks(Delta, s) {
      var i, j :| 0 <= i < j < |s| && SameRank(Delta, s[i], s[j]);
      NeighboursEqual(s, i, j);
      assert Twins(s, i);
    }
  }

  /** Reordering the entries changes neither the checkpoint nor the error. */
  lemma CheckpointByMembers(sha: Hash, id: Octets32, generation: u64, entries: seq<Entry>, other: seq<Entry>)
    requires multiset(entries) == multiset(other)
    ensures CollectionCheckpoint(sha, id, generation, entries) == CollectionCheckpoint(sha, id, generation, other)
  {
    assert |multiset(entries)| == |entries| && |multiset(other)| == |other|;
    var s, t := UpTo(generation, entries), UpTo(generation, other);
    forall e
      ensures multiset(s)[e] == multiset(t)[e]
    {
      UpToMembers(generation, entries, e);
      UpToMembers(generation, other, e);
    }
    assert multiset(s) == multiset(t);
    SortSorts(Delta, s);
    SortSorts(Delta, t);
    AdjacentMeansNotDistinct(Sort(Delta, s));
    AdjacentMeansNotDistinct(Sort(Delta, t));
    if DistinctRanks(Delta, s) {
      SortByMembers(Delta, s, t);
    } else {
      if DistinctRanks(Delta, Sort(Delta, s)) {
        DistinctByMembers(Delta, Sort(Delta, s), s);
      }
      if DistinctRanks(Delta, Sort(Delta, t)) {
        DistinctByMembers(Delta, Sort(Delta, t), s);
      }
    }
  }

  lemma {:induction false} UpToAppend(generation: nat, entries: seq<Entry>, later: seq<Entry>)
    requires forall e | e in later :: e.sequence > generation
    ensures UpTo(generation, entries + later) == UpTo(generation, entries)
  {
    if entries == [] {
      assert entries + later == later;
      UpToNothing(generation, later);
    } else {
      assert (entries + later)[1..] == entries[1..] + later;
      UpToAppend(generation, entries[1..], later);
    }
  }

  lemma {:induction false} UpToNothing(generation: nat, later: seq<Entry>)
    requires forall e | e in later :: e.sequence > generation
    ensures UpTo(generation, later) == []
  {
    if later != [] {
      UpToNothing(generation, later[1..]);
    }
  }

  /** Appending entries with later sequences leaves every earlier checkpoint as it was. */
  lemma CheckpointIgnoresLater(sha: Hash, id: Octets32, generation: u64, entries: seq<Entry>, later: seq<Entry>)
    requires |entries| + |later| <= MAX_COLLECTION_ENTRIES
    requires forall e | e in later :: e.sequence > generation
    ensures CollectionCheckpoint(sha, id, generation, entries + later) == CollectionCheckpoint(sha, id, generation, entries)
  {
    UpToAppend(generation, entries, later);
  }

  // ---- Every checkpoint is a valid summary ----

  lemma {:induction false} CheckKeysMeans(s: seq<Entry>, i: nat)
    requires i <= |s|
    ensures CheckKeys(s, i).Pass? <==> forall k | i <= k < |s| :: s[k].Valid() && !(exists j | 0 <= j < k :: s[j].Key() == s[k].Key())
    decreases |s| - i
  {
    if i < |s| {
      CheckKeysMeans(s, i + 1);
    }
  }

  /** Strictly increasing positive sequences: the entry at index `i` has a sequence beyond `i`. */
  lemma {:induction false} SequencesClimb(s: seq<Entry>, i: nat)
    requires Strict(Delta, s) && i < |s|
    requires forall e | e in s :: e.sequence >= 1
    ensures s[i].sequence >= i + 1
  {
    if i > 0 {
      SequencesClimb(s, i - 1);
      assert Before(Delta, s[i - 1], s[i]);
    }
  }

  /** Distinct positive sequences of at most `g` are at most `g` in number, so every computed checkpoint passes validation. */
  lemma CheckpointIsValid(sha: Hash, id: Octets32, generation: u64, entries: seq<Entry>)
    requires CollectionCheckpoint(sha, id, generation, entries).Ok?
    ensures ValidateSummary(CollectionCheckpoint(sha, id, generation, entries).value).Pass?
  {
    var s := UpTo(generation, entries);
    var ordered := Sort(Delta, s);
    SortSorts(Delta, s);
    UpToShorter(generation, entries);
    AdjacentMeansNotDistinct(ordered);
    OrderedDistinctIsStrict(Delta, ordered);
    CheckKeysMeans(ordered, 0);
    if ordered != [] {
      var last := ordered[|ordered| - 1];
      SequencesClimb(ordered, |ordered| - 1);
      UpToMembers(generation, entries, last);
      assert last in multiset(ordered);
    }
  }

  // ---- The digest fixes the collection ----

  function Keys(s: seq<Entry>): seq<EntryKey> {
    seq(|s|, i requires 0 <= i < |s| => s[i].Key())
  }

  lemma KeyImageInjective(k: EntryKey, l: EntryKey)
    requires KeyImage(k) == KeyImage(l)
    ensures k == l
  {
    ConcatInjective(k.objectId, BE32(k.partId) + k.representationId, l.objectId, BE32(l.partId) + l.representationId);
    ConcatInjective(BE32(k.partId), k.representationId, BE32(l.partId), l.representationId);
    BE32Injective(k.partId, l.partId);
  }

  lemma {:induction false} KeysImageInjective(s: seq<Entry>, t: seq<Entry>)
    requires |s| == |t| && KeysImage(s) == KeysImage(t)
    ensures Keys(s) == Keys(t)
  {
    if s != [] {
      ConcatInjective(KeyImage(s[0].Key()), KeysImage(s[1..]), KeyImage(t[0].Key()), KeysImage(t[1..]));
      KeyImageInjective(s[0].Key(), t[0].Key());
      KeysImageInjective(s[1..], t[1..]);
      forall i | 0 <= i < |s|
        ensures s[i].Key() == t[i].Key()
      {
        if i > 0 {
          assert Keys(s[1..])[i - 1] == Keys(t[1..])[i - 1];
        }
      }
    }
  }

  /** The entries a checkpoint covers, in sequence order. */
  function Covered(generation: nat, entries: seq<Entry>): seq<Entry> {
    Sort(Delta, UpTo(generation, entries))
  }

  lemma CollectionImageInjective(id: Octets32, g: u64, s: seq<Entry>, id': Octets32, g': u64, t: seq<Entry>)
    requires |s| <= MAX_COLLECTION_ENTRIES && |t| <= MAX_COLLECTION_ENTRIES
    requires CollectionImage(id, g, s) == CollectionImage(id', g', t)
    ensures id == id' && g == g' && Keys(s) == Keys(t)
  {
    var counted, counted' := BE64(|s|) + KeysImage(s), BE64(|t|) + KeysImage(t);
    ConcatInjective(COLLECTION_DOMAIN, id + (BE64(g) + counted), COLLECTION_DOMAIN, id' + (BE64(g') + counted'));
    ConcatInjective(id, BE64(g) + counted, id', BE64(g') + counted');
    ConcatInjective(BE64(g), counted, BE64(g'), counted');
    BE64Injective(g, g');
    ConcatInjective(BE64(|s|), KeysImage(s), BE64(|t|), KeysImage(t));
    BE64Injective(|s|, |t|);
    KeysImageInjective(s, t);
  }

  /**
   Whatever the collections and generations: one digest means one collection identity, one generation and the same
   keys in order, unless it collides.
   */
  lemma DigestFixesCheckpoint(sha: Hash, id: Octets32, generation: u64, entries: seq<Entry>, id': Octets32, generation': u64, other: seq<Entry>)
    requires var c, c' := CollectionCheckpoint(sha, id, generation, entries), CollectionCheckpoint(sha, id', generation', other);
             c.Ok? && c'.Ok? && c.value.digest == c'.value.digest
    requires |Covered(generation, entries)| <= MAX_COLLECTION_ENTRIES
    requires NoCollision(sha, CollectionImage(id, generation, Covered(generation, entries)))
    ensures id == id' && generation == generation' && Keys(Covered(generation, entries)) == Keys(Covered(generation', other))
    ensures CollectionCheckpoint(sha, id, generation, entries) == CollectionCheckpoint(sha, id', generation', other)
  {
    SortSorts(Delta, UpTo(generation', other));
    UpToShorter(generation', other);
    CollectionImageInjective(id, generation, Covered(generation, entries), id', generation', Covered(generation', other));
  }

  /** Equal checkpoints cover the same keys in the same sequence order, unless the digest collides. */
  lemma CheckpointFixesKeys(sha: Hash, id: Octets32, generation: u64, entries: seq<Entry>, other: seq<Entry>)
    requires CollectionCheckpoint(sha, id, generation, entries).Ok?
    requires CollectionCheckpoint(sha, id, generation, entries) == CollectionCheckpoint(sha, id, generation, other)
    requires |Covered(generation, entries)| <= MAX_COLLECTION_ENTRIES
    requires NoCollision(sha, CollectionImage(id, generation, Covered(generation, entries)))
    ensures Keys(Covered(generation, entries)) == Keys(Covered(generation, other))
  {
    DigestFixesCheckpoint(sha, id, generation, entries, id, generation, other);
  }

  // ---- What a checkpoint counts, and when there is one ----

  lemma ConsDistinct(mode: OfferMode, x: Entry, rest: seq<Entry>)
    ensures DistinctRanks(mode, [x] + rest) <==> DistinctRanks(mode, rest) && forall y | y in rest :: !SameRank(mode, x, y)
  {
    var s := [x] + rest;
    if DistinctRanks(mode, s) {
      forall i, j | 0 <= i < j < |rest|
        ensures !SameRank(mode, rest[i], rest[j])
      {
        assert s[i + 1] == rest[i] && s[j + 1] == rest[j];
      }
      forall y | y in rest
        ensures !SameRank(mode, x, y)
      {
        var i :| 0 <= i < |rest| && rest[i] == y;
        assert s[0] == x && s[i + 1] == y;
      }
    }
  }

  lemma {:induction false} DistinctCount(s: seq<Entry>)
    requires DistinctRanks(Delta, s)
    ensures |set e | e in s| == |s|
  {
    hide DistinctRanks;
    if s != [] {
      var rest := s[1..];
      assert s == [s[0]] + rest;
      ConsDistinct(Delta, s[0], rest);
      DistinctCount(rest);
      assert s[0] !in rest;
      assert (set e | e in s) == {s[0]} + set e | e in rest;
    }
  }

  /** A checkpoint is of the collection and generation asked for, and counts the entries of sequence up to that generation. */
  lemma CheckpointCounts(sha: Hash, id: Octets32, generation: u64, entries: seq<Entry>)
    requires CollectionCheckpoint(sha, id, generation, entries).Ok?
    ensures var c := CollectionCheckpoint(sha, id, generation, entries).value;
            c.collectionId == id && c.generation == generation && c.itemCount == |set e | e in entries && e.sequence <= generation|
  {
    var s := UpTo(generation, entries);
    var ordered := Sort(Delta, s);
    SortSorts(Delta, s);
    AdjacentMeansNotDistinct(ordered);
    DistinctByMembers(Delta, ordered, s);
    DistinctCount(s);
    forall e
      ensures e in s <==> e in entries && e.sequence <= generation
    {
      UpToMembers(generation, entries, e);
    }
    assert (set e | e in s) == set e | e in entries && e.sequence <= generation;
  }

  /** No two positions hold covered entries of one rank. */
  ghost predicate DistinctCovered(mode: OfferMode, generation: nat, entries: seq<Entry>) {
    forall i, j | 0 <= i < j < |entries| && entries[i].sequence <= generation && entries[j].sequence <= generation ::
      !SameRank(mode, entries[i], entries[j])
  }

  lemma ConsDistinctCovered(mode: OfferMode, generation: nat, x: Entry, rest: seq<Entry>)
    ensures DistinctCovered(mode, generation, [x] + rest) <==>
              && DistinctCovered(mode, generation, rest)
              && (x.sequence <= generation ==> forall y | y in rest && y.sequence <= generation :: !SameRank(mode, x, y))
  {
    var s := [x] + rest;
    if DistinctCovered(mode, generation, s) {
      forall i, j | 0 <= i < j < |rest| && rest[i].sequence <= generation && rest[j].sequence <= generation
        ensures !SameRank(mode, rest[i], rest[j])
      {
        assert s[i + 1] == rest[i] && s[j + 1] == rest[j];
      }
      forall y | y in rest && y.sequence <= generation && x.sequence <= generation
        ensures !SameRank(mode, x, y)
      {
        var i :| 0 <= i < |rest| && rest[i] == y;
        assert s[0] == x && s[i + 1] == y;
      }
    }
  }

  lemma {:induction false} UpToDistinct(mode: OfferMode, generation: nat, entries: seq<Entry>)
    ensures DistinctRanks(mode, UpTo(generation, entries)) <==> DistinctCovered(mode, generation, entries)
  {
    hide DistinctRanks, DistinctCovered, SameRank;
    if entries == [] {
      NoneDistinct(mode, generation, entries);
    } else {
      var rest := entries[1..];
      assert entries == [entries[0]] + rest;
      UpToDistinct(mode, generation, rest);
      ConsDistinctCovered(mode, generation, entries[0], rest);
      ConsDistinct(mode, entries[0], UpTo(generation, rest));
      forall e
        ensures e in UpTo(generation, rest) <==> e in rest && e.sequence <= generation
      {
        UpToMembers(generation, rest, e);
      }
      if entries[0].sequence > generation {
        assert UpTo(generation, entries) == UpTo(generation, rest);
      }
    }
  }

  lemma NoneDistinct(mode: OfferMode, generation: nat, entries: seq<Entry>)
    requires entries == []
    ensures DistinctRanks(mode, UpTo(generation, entries)) && DistinctCovered(mode, generation, entries)
  {
  }

  lemma DistinctKeys(s: seq<Entry>)
    ensures DistinctRanks(Full, s) <==> forall k | 0 <= k < |s| :: !(exists j | 0 <= j < k :: s[j].Key() == s[k].Key())
  {
    if DistinctRanks(Full, s) {
      forall k, j | 0 <= j < k < |s|
        ensures s[j].Key() != s[k].Key()
      {
        assert !SameRank(Full, s[j], s[k]);
      }
    }
  }

  lemma CoveredMembers(generation: nat, entries: seq<Entry>)
    ensures forall e :: e in Covered(generation, entries) <==> e in entries && e.sequence <= generation
  {
    SortSorts(Delta, UpTo(generation, entries));
    forall e
      ensures e in Covered(generation, entries) <==> e in entries && e.sequence <= generation
    {
      UpToMembers(generation, entries, e);
      assert e in Covered(generation, entries) <==> e in multiset(Covered(generation, entries));
    }
  }

  /** There is a checkpoint exactly of a bounded collection whose covered entries are valid and share neither sequence nor key. */
  lemma CheckpointExists(sha: Hash, id: Octets32, generation: u64, entries: seq<Entry>)
    ensures CollectionCheckpoint(sha, id, generation, entries).Ok? <==>
              && |entries| <= MAX_COLLECTION_ENTRIES
              && DistinctCovered(Delta, generation, entries) && DistinctCovered(Full, generation, entries)
              && forall e | e in entries && e.sequence <= generation :: e.Valid()
    ensures |entries| > MAX_COLLECTION_ENTRIES ==> CollectionCheckpoint(sha, id, generation, entries) == Err(Error.LimitExceeded("collection entries"))
    ensures |entries| <= MAX_COLLECTION_ENTRIES && !DistinctCovered(Delta, generation, entries) ==>
              CollectionCheckpoint(sha, id, generation, entries) == Err(Error.MetadataConflict)
  {
    hide DistinctRanks, DistinctCovered, Sort, AdjacentSequencesEqual, CheckKeys, Ordered;
    var s := UpTo(generation, entries);
    var ordered := Sort(Delta, s);
    SortSorts(Delta, s);
    AdjacentMeansNotDistinct(ordered);
    CheckKeysMeans(ordered, 0);
    UpToDistinct(Delta, generation, entries);
    UpToDistinct(Full, generation, entries);
    SameDistinct(Delta, ordered, s);
    SameDistinct(Full, ordered, s);
    DistinctKeys(ordered);
    CoveredMembers(generation, entries);
  }

  lemma SameDistinct(mode: OfferMode, s: seq<Entry>, t: seq<Entry>)
    requires multiset(s) == multiset(t)
    ensures DistinctRanks(mode, s) <==> DistinctRanks(mode, t)
  {
    if DistinctRanks(mode, s) {
      DistinctByMembers(mode, s, t);
    }
    if DistinctRanks(mode, t) {
      DistinctByMembers(mode, t, s);
    }
  }
}
