/** The two orders of collection entries, by authority sequence and by inventory key, and stable sorting by them. */
module EntryOrder {
  import opened Wrappers
  import opened Octets
  import opened Representation
  import opened Operations

  predicate SameRank(mode: OfferMode, a: Entry, b: Entry) {
    match mode
    case Delta => a.sequence == b.sequence
    case Full => a.Key() == b.Key()
  }

  lemma RankTotal(mode: OfferMode, a: Entry, b: Entry)
    ensures Before(mode, a, b) || SameRank(mode, a, b) || Before(mode, b, a)
    ensures !(Before(mode, a, b) && Before(mode, b, a))
    ensures SameRank(mode, a, b) ==> !Before(mode, a, b) && !Before(mode, b, a)
  {
    KeyTotal(a.Key(), b.Key());
  }

  lemma RankTransitive(mode: OfferMode, a: Entry, b: Entry, c: Entry)
    requires Before(mode, a, b) && Before(mode, b, c)
    ensures Before(mode, a, c)
  {
    if mode == Full {
      KeyTransitive(a.Key(), b.Key(), c.Key());
    }
  }

  function Insert(mode: OfferMode, e: Entry, s: seq<Entry>): seq<Entry> {
    if s == [] || !Before(mode, s[0], e) then [e] + s else [s[0]] + Insert(mode, e, s[1..])
  }

  /** Stable sort: entries of one rank keep their order. */
  function Sort(mode: OfferMode, s: seq<Entry>): seq<Entry> {
    if s == [] then [] else Insert(mode, s[0], Sort(mode, s[1..]))
  }

  /** No entry stands before one that should precede it. */
  ghost predicate Ordered(mode: OfferMode, s: seq<Entry>) {
    forall i, j | 0 <= i < j < |s| :: !Before(mode, s[j], s[i])
  }

  /** Strictly increasing. */
  ghost predicate Strict(mode: OfferMode, s: seq<Entry>) {
    forall i, j | 0 <= i < j < |s| :: Before(mode, s[i], s[j])
  }

  ghost predicate DistinctRanks(mode: OfferMode, s: seq<Entry>) {
    forall i, j | 0 <= i < j < |s| :: !SameRank(mode, s[i], s[j])
  }

  lemma {:induction false} InsertKeeps(mode: OfferMode, e: Entry, s: seq<Entry>)
    ensures multiset(Insert(mode, e, s)) == multiset([e]) + multiset(s)
    ensures |Insert(mode, e, s)| == |s| + 1
  {
    if s != [] && Before(mode, s[0], e) {
      InsertKeeps(mode, e, s[1..]);
      assert s == [s[0]] + s[1..];
    }
  }

  lemma OrderedCons(mode: OfferMode, x: Entry, s: seq<Entry>)
    requires Ordered(mode, s) && forall y | y in s :: !Before(mode, y, x)
    ensures Ordered(mode, [x] + s)
  {
    var t := [x] + s;
    forall i, j | 0 <= i < j < |t|
      ensures !Before(mode, t[j], t[i])
    {
      assert t[j] == s[j - 1] && s[j - 1] in s;
      if i > 0 {
        assert t[i] == s[i - 1];
      }
    }
  }

  lemma NotBeforeEither(mode: OfferMode, first: Entry, y: Entry, e: Entry)
    requires !Before(mode, first, e) && !Before(mode, y, first)
    ensures !Before(mode, y, e)
  {
    RankTotal(mode, first, y);
    if Before(mode, first, y) && Before(mode, y, e) {
      RankTransitive(mode, first, y, e);
    }
    if SameRank(mode, first, y) && Before(mode, y, e) {
      SameRankBefore(mode, first, y, e);
    }
  }

  lemma {:induction false} InsertOrders(mode: OfferMode, e: Entry, s: seq<Entry>)
    requires Ordered(mode, s)
    ensures Ordered(mode, Insert(mode, e, s))
  {
    if s == [] || !Before(mode, s[0], e) {
      forall y | y in s
        ensures !Before(mode, y, e)
      {
        var i :| 0 <= i < |s| && s[i] == y;
        if i > 0 {
          assert !Before(mode, s[i], s[0]);
        } else {
          RankTotal(mode, y, y);
        }
        NotBeforeEither(mode, s[0], y, e);
      }
      OrderedCons(mode, e, s);
    } else {
      InsertOrders(mode, e, s[1..]);
      InsertKeeps(mode, e, s[1..]);
      var t := Insert(mode, e, s[1..]);
      forall y | y in t
        ensures !Before(mode, y, s[0])
      {
        assert y in multiset(t);
        if y == e {
          RankTotal(mode, s[0], e);
        } else {
          assert y in s[1..];
        }
      }
      OrderedCons(mode, s[0], t);
    }
  }

  lemma SameRankBefore(mode: OfferMode, a: Entry, b: Entry, c: Entry)
    requires SameRank(mode, a, b) && Before(mode, b, c)
    ensures Before(mode, a, c)
  {
  }

  lemma {:induction false} SortSorts(mode: OfferMode, s: seq<Entry>)
    ensures multiset(Sort(mode, s)) == multiset(s)
    ensures |Sort(mode, s)| == |s|
    ensures Ordered(mode, Sort(mode, s))
  {
    if s != [] {
      SortSorts(mode, s[1..]);
      InsertKeeps(mode, s[0], Sort(mode, s[1..]));
      InsertOrders(mode, s[0], Sort(mode, s[1..]));
      assert s == [s[0]] + s[1..];
    }
  }

  /** The entries that share the rank of `x`, in order. */
  function Ranked(mode: OfferMode, x: Entry, s: seq<Entry>): seq<Entry> {
    if s == [] then [] else (if SameRank(mode, s[0], x) then [s[0]] else []) + Ranked(mode, x, s[1..])
  }

  lemma {:induction false} InsertIsStable(mode: OfferMode, x: Entry, e: Entry, s: seq<Entry>)
    ensures Ranked(mode, x, Insert(mode, e, s)) == (if SameRank(mode, e, x) then [e] else []) + Ranked(mode, x, s)
  {
    if s == [] || !Before(mode, s[0], e) {
      assert ([e] + s)[1..] == s;
    } else {
      InsertIsStable(mode, x, e, s[1..]);
      assert ([s[0]] + Insert(mode, e, s[1..]))[1..] == Insert(mode, e, s[1..]);
      NotOneRank(mode, s[0], e, x);
    }
  }

  lemma NotOneRank(mode: OfferMode, a: Entry, b: Entry, x: Entry)
    requires Before(mode, a, b)
    ensures !(SameRank(mode, a, x) && SameRank(mode, b, x))
  {
    RankTotal(mode, a, b);
  }

  /** Sorting keeps the order of entries of one rank. */
  lemma {:induction false} SortIsStable(mode: OfferMode, x: Entry, s: seq<Entry>)
    ensures Ranked(mode, x, Sort(mode, s)) == Ranked(mode, x, s)
  {
    if s != [] {
      SortIsStable(mode, x, s[1..]);
      InsertIsStable(mode, x, s[0], Sort(mode, s[1..]));
    }
  }

  lemma OrderedDistinctIsStrict(mode: OfferMode, s: seq<Entry>)
    requires Ordered(mode, s)
    ensures DistinctRanks(mode, s) <==> Strict(mode, s)
  {
    forall i, j | 0 <= i < j < |s|
      ensures SameRank(mode, s[i], s[j]) <==> !Before(mode, s[i], s[j])
    {
      RankTotal(mode, s[i], s[j]);
    }
  }

  lemma TailMembers(s: seq<Entry>)
    requires s != []
    ensures multiset(s[1..]) == multiset(s) - multiset([s[0]])
  {
    assert s == [s[0]] + s[1..];
  }

  lemma FirstIsLeast(mode: OfferMode, s: seq<Entry>, e: Entry)
    requires Strict(mode, s) && e in multiset(s)
    ensures s != [] && (s[0] == e || Before(mode, s[0], e))
  {
    var i :| 0 <= i < |s| && s[i] == e;
  }

  lemma HeadsAgree(mode: OfferMode, s: seq<Entry>, t: seq<Entry>)
    requires Strict(mode, s) && Strict(mode, t) && multiset(s) == multiset(t) && s != [] && t != []
    ensures s[0] == t[0]
  {
    hide Before;
    assert s[0] in multiset(s) && t[0] in multiset(t);
    FirstIsLeast(mode, t, s[0]);
    FirstIsLeast(mode, s, t[0]);
    RankTotal(mode, s[0], t[0]);
  }

  /** Same members, strictly increasing: the same sequence. */
  lemma {:induction false} StrictUnique(mode: OfferMode, s: seq<Entry>, t: seq<Entry>)
    requires Strict(mode, s) && Strict(mode, t) && multiset(s) == multiset(t)
    ensures s == t
    decreases |s|
  {
    assert |s| == |multiset(s)| == |multiset(t)| == |t|;
    if s != [] {
      hide Before;
      HeadsAgree(mode, s, t);
      TailMembers(s);
      TailMembers(t);
      StrictUnique(mode, s[1..], t[1..]);
      assert s == [s[0]] + s[1..] && t == [t[0]] + t[1..];
    }
  }

  lemma {:induction false} DistinctByMembers(mode: OfferMode, s: seq<Entry>, t: seq<Entry>)
    requires multiset(s) == multiset(t) && DistinctRanks(mode, s)
    ensures DistinctRanks(mode, t)
  {
    forall i, j | 0 <= i < j < |t|
      ensures !SameRank(mode, t[i], t[j])
    {
      if SameRank(mode, t[i], t[j]) {
        TwoMembers(t, i, j);
        assert t[i] in multiset(s) && t[j] in multiset(s);
        var k :| 0 <= k < |s| && s[k] == t[i];
        var l :| 0 <= l < |s| && s[l] == t[j];
        if k == l {
          OneMember(mode, s, k);
        }
        assert false;
      }
    }
  }

  /** Positions i < j hold one entry twice or two entries. */
  lemma TwoMembers(t: seq<Entry>, i: nat, j: nat)
    requires i < j < |t|
    ensures t[i] == t[j] ==> multiset(t)[t[i]] >= 2
  {
    if t[i] == t[j] {
      assert t == t[..i] + [t[i]] + t[i + 1..j] + [t[j]] + t[j + 1..];
    }
  }

  lemma OneMember(mode: OfferMode, s: seq<Entry>, k: nat)
    requires DistinctRanks(mode, s) && k < |s|
    ensures multiset(s)[s[k]] == 1
  {
    var before, after := s[..k], s[k + 1..];
    assert s == before + [s[k]] + after;
    forall i | 0 <= i < |s| && i != k
      ensures s[i] != s[k]
    {
      assert !SameRank(mode, s[if i < k then i else k], s[if i < k then k else i]);
    }
    assert forall i | 0 <= i < |before| :: before[i] == s[i];
    assert forall i | 0 <= i < |after| :: after[i] == s[k + 1 + i];
  }

  /** Sorting entries of distinct rank depends on the members only. */
  lemma SortByMembers(mode: OfferMode, s: seq<Entry>, t: seq<Entry>)
    requires multiset(s) == multiset(t) && DistinctRanks(mode, s)
    ensures Sort(mode, s) == Sort(mode, t) && Strict(mode, Sort(mode, s))
  {
    SortSorts(mode, s);
    SortSorts(mode, t);
    DistinctByMembers(mode, s, Sort(mode, s));
    DistinctByMembers(mode, s, Sort(mode, t));
    OrderedDistinctIsStrict(mode, Sort(mode, s));
    OrderedDistinctIsStrict(mode, Sort(mode, t));
    StrictUnique(mode, Sort(mode, s), Sort(mode, t));
  }
}
