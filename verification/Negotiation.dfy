/** Compatibility negotiation: one deterministic choice, the same from both ends. */
module Negotiation {
  import opened Wrappers
  import opened Octets
  import opened Operations

  datatype Profile = Profile(
    protocol: Generation,
    preference: CodecPreference,
    maxOperationOctets: u32,
    maxDataPayloadOctets: u64,
    receiptLevels: byte,
    securityClass: SecurityClass,
    extensions: seq<u32>)

  /** Bitwise conjunction. */
  function And(a: byte, b: byte): (r: byte)
    ensures r <= a && r <= b
  {
    if a == 0 || b == 0 then 0 else (if a % 2 == 1 && b % 2 == 1 then 1 else 0) + 2 * And(a / 2, b / 2)
  }

  lemma {:induction false} AndCommutes(a: byte, b: byte)
    ensures And(a, b) == And(b, a)
  {
    if a != 0 && b != 0 {
      AndCommutes(a / 2, b / 2);
    }
  }

  /** Whether the bit at this position is set. */
  predicate HasBit(a: byte, position: nat) {
    if position == 0 then a % 2 == 1 else HasBit(a / 2, position - 1)
  }

  /** Bit by bit, the conjunction has exactly what both have. */
  lemma {:induction false} AndIsBitwise(a: byte, b: byte, position: nat)
    ensures HasBit(And(a, b), position) <==> HasBit(a, position) && HasBit(b, position)
    decreases position
  {
    if a == 0 {
      NoBit(position);
    } else if b == 0 {
      NoBit(position);
    } else if position > 0 {
      AndIsBitwise(a / 2, b / 2, position - 1);
    }
  }

  lemma {:induction false} NoBit(position: nat)
    ensures !HasBit(0, position)
  {
    if position > 0 {
      NoBit(position - 1);
    }
  }

  lemma {:induction false} AndWithItself(a: byte)
    ensures And(a, a) == a
  {
    if a != 0 {
      AndWithItself(a / 2);
    }
  }

  // ---- Orders ----

  predicate GenerationLess(a: Generation, b: Generation) {
    a.major < b.major || (a.major == b.major && a.minor < b.minor)
  }

  predicate PreferenceLess(a: CodecPreference, b: CodecPreference) {
    || a.codecId < b.codecId
    || (a.codecId == b.codecId && (a.revision < b.revision || (a.revision == b.revision && LexLess(a.schema, b.schema))))
  }

  /** A common preference with the sum of its two positions. */
  datatype Candidate = Candidate(sum: nat, preference: CodecPreference)

  predicate CandidateLess(a: Candidate, b: Candidate) {
    a.sum < b.sum || (a.sum == b.sum && PreferenceLess(a.preference, b.preference))
  }

  lemma CandidateTotal(a: Candidate, b: Candidate)
    ensures CandidateLess(a, b) || a == b || CandidateLess(b, a)
    ensures !(CandidateLess(a, b) && CandidateLess(b, a))
  {
    LexTotal(a.preference.schema, b.preference.schema);
  }

  lemma CandidateTransitive(a: Candidate, b: Candidate, c: Candidate)
    requires CandidateLess(a, b) && CandidateLess(b, c)
    ensures CandidateLess(a, c)
  {
    if LexLess(a.preference.schema, b.preference.schema) && LexLess(b.preference.schema, c.preference.schema) {
      LexTransitive(a.preference.schema, b.preference.schema, c.preference.schema);
    }
  }

  // ---- What is agreed ----

  /** The candidate found at these two positions. */
  ghost predicate FoundAt(local: Capabilities, remote: Capabilities, i: nat, j: nat, c: Candidate) {
    && i < |local.codecs| && j < |remote.codecs|
    && local.codecs[i] == remote.codecs[j] == c.preference && c.sum == i + j
  }

  ghost predicate IsCommon(local: Capabilities, remote: Capabilities, c: Candidate) {
    exists i: nat, j: nat :: FoundAt(local, remote, i, j, c)
  }

  ghost predicate IsBest(local: Capabilities, remote: Capabilities, c: Candidate) {
    IsCommon(local, remote, c) && forall x | IsCommon(local, remote, x) :: !CandidateLess(x, c)
  }

  ghost predicate IsHighest(local: Capabilities, remote: Capabilities, g: Generation) {
    && g in local.generations && g in remote.generations
    && forall x | x in local.generations && x in remote.generations :: !GenerationLess(g, x)
  }

  function ExtensionIds(s: seq<ExtensionDeclaration>): set<u32> {
    set e | e in s :: e.id
  }

  ghost predicate CriticalKnown(s: seq<ExtensionDeclaration>, peer: seq<ExtensionDeclaration>) {
    forall e | e in s && e.critical :: e.id in ExtensionIds(peer)
  }

  predicate Increasing(s: seq<u32>) {
    forall i | 0 < i < |s| :: s[i - 1] < s[i]
  }

  ghost predicate IsProfile(local: Capabilities, remote: Capabilities, p: Profile) {
    && IsHighest(local, remote, p.protocol)
    && (exists c :: IsBest(local, remote, c) && p.preference == c.preference)
    && p.maxOperationOctets == (if local.maxOperationOctets <= remote.maxOperationOctets then local.maxOperationOctets else remote.maxOperationOctets)
    && p.maxDataPayloadOctets ==
         (if local.maxDataPayloadOctets <= remote.maxDataPayloadOctets then local.maxDataPayloadOctets else remote.maxDataPayloadOctets)
    && p.receiptLevels == And(local.receiptLevels, remote.receiptLevels)
    && p.securityClass == local.securityClass == remote.securityClass
    && Increasing(p.extensions)
    && (forall x: u32 :: x in p.extensions <==> x in ExtensionIds(local.extensions) && x in ExtensionIds(remote.extensions))
  }

  /** The one outcome both ends reach. */
  ghost predicate Agreed(local: Capabilities, remote: Capabilities, r: Result<Profile, FailureCode>) {
    if ValidateCapabilities(local).Fail? || ValidateCapabilities(remote).Fail? then
      r == Err(MalformedOperation)
    else if !(exists g :: g in local.generations && g in remote.generations) then
      r == Err(UnsupportedVersion)
    else if local.securityClass != remote.securityClass then
      r == Err(PolicyRejected)
    else if !(exists c :: IsCommon(local, remote, c)) then
      r == Err(if exists x :: x in local.schemas && x in remote.schemas then UnsupportedCodec else UnsupportedSchema)
    else if !CriticalKnown(local.extensions, remote.extensions) || !CriticalKnown(remote.extensions, local.extensions) then
      r == Err(FailureCode.UnsupportedCriticalExtension)
    else
      r.Ok? && IsProfile(local, remote, r.value)
  }

  lemma CommonCommutes(local: Capabilities, remote: Capabilities, c: Candidate)
    ensures IsCommon(local, remote, c) <==> IsCommon(remote, local, c)
  {
    forall i: nat, j: nat
      ensures FoundAt(local, remote, i, j, c) <==> FoundAt(remote, local, j, i, c)
    {
    }
  }

  lemma BestCommutes(local: Capabilities, remote: Capabilities, c: Candidate)
    ensures IsBest(local, remote, c) <==> IsBest(remote, local, c)
  {
    forall x
      ensures IsCommon(local, remote, x) <==> IsCommon(remote, local, x)
    {
      CommonCommutes(local, remote, x);
    }
  }

  lemma ProfileCommutes(local: Capabilities, remote: Capabilities, p: Profile)
    requires IsProfile(local, remote, p)
    ensures IsProfile(remote, local, p)
  {
    AndCommutes(local.receiptLevels, remote.receiptLevels);
    var c :| IsBest(local, remote, c) && p.preference == c.preference;
    BestCommutes(local, remote, c);
  }

  /** What one end may conclude, the other may conclude, failure code included. */
  lemma AgreedCommutes(local: Capabilities, remote: Capabilities, r: Result<Profile, FailureCode>)
    requires Agreed(local, remote, r)
    ensures Agreed(remote, local, r)
  {
    forall c
      ensures IsCommon(local, remote, c) <==> IsCommon(remote, local, c)
    {
      CommonCommutes(local, remote, c);
    }
    if r.Ok? {
      ProfileCommutes(local, remote, r.value);
    }
  }

  lemma {:induction false} IncreasingFromFirst(s: seq<u32>, i: nat)
    requires Increasing(s) && i < |s|
    ensures s[0] <= s[i]
  {
    if i > 0 {
      IncreasingFromFirst(s, i - 1);
    }
  }

  lemma {:induction false} IncreasingUnique(s: seq<u32>, t: seq<u32>)
    requires Increasing(s) && Increasing(t)
    requires forall x: u32 :: x in s <==> x in t
    ensures s == t
    decreases |s|
  {
    assert s != [] ==> s[0] in t;
    assert t != [] ==> t[0] in s;
    if s != [] && t != [] {
      var i :| 0 <= i < |s| && s[i] == t[0];
      var j :| 0 <= j < |t| && t[j] == s[0];
      IncreasingFromFirst(s, i);
      IncreasingFromFirst(t, j);
      assert s[0] == t[0];
      assert Increasing(s[1..]) && Increasing(t[1..]);
      forall x: u32
        ensures x in s[1..] <==> x in t[1..]
      {
        TailHolds(s, x);
        TailHolds(t, x);
      }
      IncreasingUnique(s[1..], t[1..]);
      assert s == [s[0]] + s[1..] && t == [t[0]] + t[1..];
    }
  }

  lemma TailHolds(s: seq<u32>, x: u32)
    requires Increasing(s) && s != []
    ensures x in s[1..] <==> x in s && x != s[0]
  {
    if x in s[1..] {
      var i :| 1 <= i < |s| && s[i] == x;
      IncreasingFromFirst(s[1..], i - 1);
      assert s[1] > s[0];
    }
  }

  /** There is only one agreed outcome. */
  lemma AgreedUnique(local: Capabilities, remote: Capabilities, r: Result<Profile, FailureCode>, q: Result<Profile, FailureCode>)
    requires Agreed(local, remote, r) && Agreed(local, remote, q)
    ensures r == q
  {
    if r.Ok? && q.Ok? {
      var p, o := r.value, q.value;
      var c :| IsBest(local, remote, c) && p.preference == c.preference;
      var d :| IsBest(local, remote, d) && o.preference == d.preference;
      CandidateTotal(c, d);
      IncreasingUnique(p.extensions, o.extensions);
    }
  }

  /** Ends with one and the same valid capability value agree on its first preference, on its own limits and on everything it declares. */
  lemma SelfAgreement(c: Capabilities, r: Result<Profile, FailureCode>)
    requires ValidateCapabilities(c).Pass? && Agreed(c, c, r)
    ensures r.Ok? && r.value.maxOperationOctets == c.maxOperationOctets && r.value.maxDataPayloadOctets == c.maxDataPayloadOctets
    ensures r.value.preference == c.codecs[0] && r.value.receiptLevels == c.receiptLevels && r.value.securityClass == c.securityClass
    ensures forall x: u32 :: x in r.value.extensions <==> x in ExtensionIds(c.extensions)
    ensures r.value.protocol in c.generations && (c.extensions == [] ==> r.value.extensions == [])
  {
    assert c.generations[0] in c.generations;
    assert FoundAt(c, c, 0, 0, Candidate(0, c.codecs[0]));
    assert IsCommon(c, c, Candidate(0, c.codecs[0]));
    AndWithItself(c.receiptLevels);
    var best :| IsBest(c, c, best) && r.value.preference == best.preference;
    assert !CandidateLess(Candidate(0, c.codecs[0]), best);
    if r.value.extensions != [] {
      assert r.value.extensions[0] in r.value.extensions;
    }
  }

  /** The first preference both hold, found by value. */
  lemma CommonByValue(local: Capabilities, remote: Capabilities)
    ensures (exists c :: IsCommon(local, remote, c)) <==> exists p :: p in local.codecs && p in remote.codecs
  {
    if c :| IsCommon(local, remote, c) {
      var i: nat, j: nat :| FoundAt(local, remote, i, j, c);
      assert local.codecs[i] in remote.codecs;
    }
    if p :| p in local.codecs && p in remote.codecs {
      var i: nat :| i < |local.codecs| && local.codecs[i] == p;
      var j: nat :| j < |remote.codecs| && remote.codecs[j] == p;
      assert FoundAt(local, remote, i, j, Candidate(i + j, p));
      assert IsCommon(local, remote, Candidate(i + j, p));
    }
  }

  /** Both ends are valid and of one security class, and have a generation in common. */
  ghost predicate Comparable(local: Capabilities, remote: Capabilities) {
    && ValidateCapabilities(local).Pass? && ValidateCapabilities(remote).Pass?
    && (exists g :: g in local.generations && g in remote.generations)
    && local.securityClass == remote.securityClass
  }

  /**
   When ends fail to agree, and how: the codec is unsupported where they have a schema in common but no preference, the schema where they have
   neither, and an extension where one end requires what the other does not declare.
   */
  lemma DisagreementMeans(local: Capabilities, remote: Capabilities, r: Result<Profile, FailureCode>)
    requires Agreed(local, remote, r)
    ensures ValidateCapabilities(local).Fail? || ValidateCapabilities(remote).Fail? <==> r == Err(MalformedOperation)
    ensures r == Err(UnsupportedVersion) <==>
              && ValidateCapabilities(local).Pass? && ValidateCapabilities(remote).Pass?
              && forall g | g in local.generations :: g !in remote.generations
    ensures r == Err(PolicyRejected) <==>
              && ValidateCapabilities(local).Pass? && ValidateCapabilities(remote).Pass?
              && (exists g :: g in local.generations && g in remote.generations)
              && local.securityClass != remote.securityClass
    ensures r == Err(UnsupportedSchema) <==>
              && Comparable(local, remote) && (forall p | p in local.codecs :: p !in remote.codecs)
              && (forall x | x in local.schemas :: x !in remote.schemas)
    ensures r == Err(UnsupportedCodec) <==>
              && Comparable(local, remote) && (forall p | p in local.codecs :: p !in remote.codecs)
              && (exists x :: x in local.schemas && x in remote.schemas)
    ensures Comparable(local, remote) && (exists p :: p in local.codecs && p in remote.codecs) ==>
              if exists e: ExtensionDeclaration :: e.critical && ((e in local.extensions && e.id !in ExtensionIds(remote.extensions))
                                            || (e in remote.extensions && e.id !in ExtensionIds(local.extensions))) then
                r == Err(FailureCode.UnsupportedCriticalExtension)
              else
                r.Ok?
  {
    CommonByValue(local, remote);
  }

  /**
   What is agreed is the latest common generation, the common preference whose two positions are earliest together, the smaller of both limits, the
   receipt levels and the extensions both have.
   */
  lemma AgreedIsBest(local: Capabilities, remote: Capabilities, p: Profile)
    requires IsProfile(local, remote, p)
    ensures p.maxOperationOctets <= local.maxOperationOctets && p.maxOperationOctets <= remote.maxOperationOctets
    ensures p.maxDataPayloadOctets <= local.maxDataPayloadOctets && p.maxDataPayloadOctets <= remote.maxDataPayloadOctets
    ensures p.maxOperationOctets in {local.maxOperationOctets, remote.maxOperationOctets}
    ensures p.maxDataPayloadOctets in {local.maxDataPayloadOctets, remote.maxDataPayloadOctets}
    ensures forall position: nat ::
              HasBit(p.receiptLevels, position) <==> HasBit(local.receiptLevels, position) && HasBit(remote.receiptLevels, position)
    ensures forall x: u32 :: x in p.extensions <==> (exists e | e in local.extensions :: e.id == x) && (exists f | f in remote.extensions :: f.id == x)
    ensures forall i | 0 < i < |p.extensions| :: p.extensions[i - 1] < p.extensions[i]
    ensures p.securityClass == local.securityClass == remote.securityClass
    ensures forall g | g in local.generations && g in remote.generations ::
              g.major < p.protocol.major || (g.major == p.protocol.major && g.minor <= p.protocol.minor)
    ensures exists k: nat, l: nat :: PreferredAt(local, remote, p.preference, k, l)
  {
    var best :| IsBest(local, remote, best) && p.preference == best.preference;
    var k: nat, l: nat :| FoundAt(local, remote, k, l, best);
    forall i: nat, j: nat | i < |local.codecs| && j < |remote.codecs| && local.codecs[i] == remote.codecs[j]
      ensures NoLater(best.preference, k + l, local.codecs[i], i + j)
    {
      var other := Candidate(i + j, local.codecs[i]);
      assert FoundAt(local, remote, i, j, other);
      assert IsCommon(local, remote, other);
      LexTotal(other.preference.schema, best.preference.schema);
    }
    forall position: nat
      ensures HasBit(p.receiptLevels, position) <==> HasBit(local.receiptLevels, position) && HasBit(remote.receiptLevels, position)
    {
      AndIsBitwise(local.receiptLevels, remote.receiptLevels, position);
    }
    assert PreferredAt(local, remote, p.preference, k, l);
  }

  /** The preference stands at these positions, and no common one stands earlier or as early and before it by identifier, revision and schema. */
  ghost predicate PreferredAt(local: Capabilities, remote: Capabilities, p: CodecPreference, k: nat, l: nat) {
    && k < |local.codecs| && l < |remote.codecs| && local.codecs[k] == remote.codecs[l] == p
    && forall i: nat, j: nat | i < |local.codecs| && j < |remote.codecs| && local.codecs[i] == remote.codecs[j] ::
         NoLater(p, k + l, local.codecs[i], i + j)
  }

  ghost predicate NoLater(p: CodecPreference, sum: nat, q: CodecPreference, other: nat) {
    && sum <= other
    && (sum == other ==>
          && p.codecId <= q.codecId
          && (p.codecId == q.codecId ==>
                p.revision <= q.revision && (p.revision == q.revision ==> p.schema == q.schema || LexLess(p.schema, q.schema))))
  }

  // ---- The procedure ----

  method HighestCommon(local: seq<Generation>, remote: seq<Generation>) returns (r: Option<Generation>)
    ensures r.None? ==> forall g | g in local :: g !in remote
    ensures r.Some? ==> r.value in local && r.value in remote && forall x | x in local && x in remote :: !GenerationLess(r.value, x)
  {
    r := None;
    for i := 0 to |local|
      invariant r.None? ==> forall k | 0 <= k < i :: local[k] !in remote
      invariant r.Some? ==> r.value in local && r.value in remote
      invariant r.Some? ==> forall k | 0 <= k < i && local[k] in remote :: !GenerationLess(r.value, local[k])
    {
      if local[i] in remote && (r.None? || !GenerationLess(local[i], r.value)) {
        r := Some(local[i]);
      }
    }
  }

  /** Every candidate of the first `i` local preferences has been collected. */
  ghost predicate Collected(local: Capabilities, remote: Capabilities, i: nat, cs: seq<Candidate>) {
    forall k: nat, l: nat, c | k < i && FoundAt(local, remote, k, l, c) :: c in cs
  }

  /** The candidates of one local preference. */
  method CandidatesAt(local: Capabilities, remote: Capabilities, i: nat) returns (cs: seq<Candidate>)
    requires i < |local.codecs|
    ensures forall c :: c in cs <==> exists j: nat :: FoundAt(local, remote, i, j, c)
  {
    cs := [];
    for j := 0 to |remote.codecs|
      invariant forall c :: c in cs ==> exists l: nat :: l < j && FoundAt(local, remote, i, l, c)
      invariant forall l: nat, c | l < j && FoundAt(local, remote, i, l, c) :: c in cs
    {
      if local.codecs[i] == remote.codecs[j] {
        assert FoundAt(local, remote, i, j, Candidate(i + j, local.codecs[i]));
        cs := cs + [Candidate(i + j, local.codecs[i])];
      }
    }
  }

  /** Every pair of equal preferences, in the order the two lists are walked. */
  method Candidates(local: Capabilities, remote: Capabilities) returns (cs: seq<Candidate>)
    ensures forall c :: c in cs <==> IsCommon(local, remote, c)
  {
    cs := [];
    for i := 0 to |local.codecs|
      invariant forall c | c in cs :: IsCommon(local, remote, c)
      invariant Collected(local, remote, i, cs)
    {
      var row := CandidatesAt(local, remote, i);
      cs := cs + row;
    }
  }

  /** The first candidate in sorted order. */
  method Least(cs: seq<Candidate>) returns (c: Candidate)
    requires cs != []
    ensures c in cs && forall x | x in cs :: !CandidateLess(x, c)
  {
    c := cs[0];
    CandidateTotal(c, c);
    for i := 1 to |cs|
      invariant c in cs && forall k | 0 <= k < i :: !CandidateLess(cs[k], c)
    {
      if CandidateLess(cs[i], c) {
        forall k | 0 <= k < i
          ensures !CandidateLess(cs[k], cs[i])
        {
          if CandidateLess(cs[k], cs[i]) {
            CandidateTransitive(cs[k], cs[i], c);
          }
        }
        CandidateTotal(cs[i], cs[i]);
        c := cs[i];
      }
    }
  }

  method Insert(s: seq<u32>, x: u32) returns (r: seq<u32>)
    requires Increasing(s)
    ensures Increasing(r) && forall y: u32 :: y in r <==> y in s || y == x
  {
    var i := 0;
    while i < |s| && s[i] < x
      invariant 0 <= i <= |s| && forall k | 0 <= k < i :: s[k] < x
    {
      i := i + 1;
    }
    if i < |s| && s[i] == x {
      return s;
    }
    r := s[..i] + [x] + s[i..];
    assert s == s[..i] + s[i..];
  }

  method CommonExtensions(local: seq<ExtensionDeclaration>, remote: seq<ExtensionDeclaration>) returns (r: seq<u32>)
    ensures Increasing(r)
    ensures forall x: u32 :: x in r <==> x in ExtensionIds(local) && x in ExtensionIds(remote)
  {
    r := [];
    for i := 0 to |local|
      invariant Increasing(r)
      invariant forall x: u32 :: x in r <==> x in ExtensionIds(local[..i]) && x in ExtensionIds(remote)
    {
      assert local[..i + 1] == local[..i] + [local[i]];
      if exists e | e in remote :: e.id == local[i].id {
        r := Insert(r, local[i].id);
      }
    }
    assert local[..|local|] == local;
  }

  method MissingCritical(s: seq<ExtensionDeclaration>, peer: seq<ExtensionDeclaration>) returns (missing: bool)
    ensures missing <==> !CriticalKnown(s, peer)
  {
    missing := exists e | e in s :: e.critical && !(exists f | f in peer :: f.id == e.id);
  }

  method Negotiate(local: Capabilities, remote: Capabilities) returns (r: Result<Profile, FailureCode>)
    ensures Agreed(local, remote, r)
  {
    if ValidateCapabilities(local).Fail? || ValidateCapabilities(remote).Fail? {
      return Err(MalformedOperation);
    }
    var protocol := HighestCommon(local.generations, remote.generations);
    if protocol.None? {
      return Err(UnsupportedVersion);
    }
    if local.securityClass != remote.securityClass {
      return Err(PolicyRejected);
    }
    var candidates := Candidates(local, remote);
    if candidates == [] {
      return Err(if exists x | x in local.schemas :: x in remote.schemas then UnsupportedCodec else UnsupportedSchema);
    }
    assert IsCommon(local, remote, candidates[0]);
    var best := Least(candidates);
    assert IsBest(local, remote, best);
    var missingThere := MissingCritical(local.extensions, remote.extensions);
    var missingHere := MissingCritical(remote.extensions, local.extensions);
    if missingThere || missingHere {
      return Err(FailureCode.UnsupportedCriticalExtension);
    }
    var extensions := CommonExtensions(local.extensions, remote.extensions);
    r := Ok(Profile(
      protocol.value,
      best.preference,
      if local.maxOperationOctets <= remote.maxOperationOctets then local.maxOperationOctets else remote.maxOperationOctets,
      if local.maxDataPayloadOctets <= remote.maxDataPayloadOctets then local.maxDataPayloadOctets else remote.maxDataPayloadOctets,
      And(local.receiptLevels, remote.receiptLevels),
      local.securityClass,
      extensions));
  }

  /** Both ends negotiate independently and reach the same outcome. */
  method NegotiateBothEnds(a: Capabilities, b: Capabilities) returns (atA: Result<Profile, FailureCode>, atB: Result<Profile, FailureCode>)
    ensures atA == atB && Agreed(a, b, atA)
  {
    atA := Negotiate(a, b);
    atB := Negotiate(b, a);
    AgreedCommutes(b, a, atB);
    AgreedUnique(a, b, atA, atB);
  }
}
