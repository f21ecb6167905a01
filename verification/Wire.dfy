/**
 Reading and writing the fields of a record image.

 `Put...(x, tail)` is the image of `x` followed by `tail`; `Get...(s)` reads one value off the front of `s`.
 Every `Get` promises that what it accepted is the image of what it returns, followed by what it left.
 */
module Wire {
  import opened Wrappers
  import opened Octets
  import opened Operations

  /** A value and the unread octets, or the first error. */
  datatype Parsed<+T> = Parsed(value: T, rest: Bytes) | Failed(error: Error) {
    predicate IsFailure() {
      Failed?
    }

    function PropagateFailure<U>(): Parsed<U>
      requires Failed?
    {
      Failed(error)
    }

    function Extract(): (T, Bytes)
      requires Parsed?
    {
      (value, rest)
    }

    function Map<U>(f: T -> U): Parsed<U> {
      if Parsed? then Parsed(f(value), rest) else Failed(error)
    }
  }

  // ---- Fixed-width fields ----

  function Take(n: nat, s: Bytes): (r: Parsed<Bytes>)
    ensures r.Parsed? <==> n <= |s|
    ensures r.Parsed? ==> s == r.value + r.rest && |r.value| == n
  {
    if |s| < n then Failed(Truncated) else Parsed(s[..n], s[n..])
  }

  function GetU8(s: Bytes): (r: Parsed<byte>)
    ensures r.Parsed? ==> s == [r.value] + r.rest
  {
    if |s| < 1 then Failed(Truncated) else Parsed(s[0], s[1..])
  }

  function PutBool(b: bool, tail: Bytes): Bytes {
    [if b then 1 else 0] + tail
  }

  function GetBool(s: Bytes): (r: Parsed<bool>)
    ensures r.Parsed? ==> s == PutBool(r.value, r.rest)
  {
    var (b, s1) :- GetU8(s);
    if b == 0 then Parsed(false, s1) else if b == 1 then Parsed(true, s1) else Failed(NonCanonical("boolean"))
  }

  function GetU16(s: Bytes): (r: Parsed<u16>)
    ensures r.Parsed? ==> s == BE16(r.value) + r.rest
  {
    var (b, s1) :- Take(2, s);
    Parsed(FromBE16(b), s1)
  }

  function GetU32(s: Bytes): (r: Parsed<u32>)
    ensures r.Parsed? ==> s == BE32(r.value) + r.rest
  {
    var (b, s1) :- Take(4, s);
    Parsed(FromBE32(b), s1)
  }

  function GetU64(s: Bytes): (r: Parsed<u64>)
    ensures r.Parsed? ==> s == BE64(r.value) + r.rest
  {
    var (b, s1) :- Take(8, s);
    Parsed(FromBE64(b), s1)
  }

  function GetArray16(s: Bytes): (r: Parsed<Octets16>)
    ensures r.Parsed? ==> s == r.value + r.rest
  {
    var (b, s1) :- Take(16, s);
    Parsed(b, s1)
  }

  function GetArray32(s: Bytes): (r: Parsed<Octets32>)
    ensures r.Parsed? ==> s == r.value + r.rest
  {
    var (b, s1) :- Take(32, s);
    Parsed(b, s1)
  }

  lemma TakeTook(b: Bytes, tail: Bytes)
    ensures Take(|b|, b + tail) == Parsed(b, tail)
  {
  }

  lemma GotU8(b: byte, tail: Bytes)
    ensures GetU8([b] + tail) == Parsed(b, tail)
  {
  }

  lemma GotBool(b: bool, tail: Bytes)
    ensures GetBool(PutBool(b, tail)) == Parsed(b, tail)
  {
    GotU8(if b then 1 else 0, tail);
  }

  lemma GotU16(n: u16, tail: Bytes)
    ensures GetU16(BE16(n) + tail) == Parsed(n, tail)
  {
    TakeTook(BE16(n), tail);
    BE16Injective(n, FromBE16(BE16(n)));
  }

  lemma GotU32(n: u32, tail: Bytes)
    ensures GetU32(BE32(n) + tail) == Parsed(n, tail)
  {
    TakeTook(BE32(n), tail);
    BE32Injective(n, FromBE32(BE32(n)));
  }

  lemma GotU64(n: u64, tail: Bytes)
    ensures GetU64(BE64(n) + tail) == Parsed(n, tail)
  {
    TakeTook(BE64(n), tail);
    BE64Injective(n, FromBE64(BE64(n)));
  }

  lemma GotArray16(a: Octets16, tail: Bytes)
    ensures GetArray16(a + tail) == Parsed(a, tail)
  {
    TakeTook(a, tail);
  }

  lemma GotArray32(a: Octets32, tail: Bytes)
    ensures GetArray32(a + tail) == Parsed(a, tail)
  {
    TakeTook(a, tail);
  }

  // ---- Counted fields ----

  function GetCount(maximum: nat, s: Bytes): (r: Parsed<byte>)
    ensures r.Parsed? ==> s == [r.value] + r.rest && r.value <= maximum
  {
    var (n, s1) :- GetU8(s);
    if n > maximum then Failed(Error.LimitExceeded("count")) else Parsed(n, s1)
  }

  lemma GotCount(maximum: nat, n: byte, tail: Bytes)
    requires n <= maximum
    ensures GetCount(maximum, [n] + tail) == Parsed(n, tail)
  {
    GotU8(n, tail);
  }

  /** A 32-bit length, refused unless that many octets remain. */
  function GetU32Length(maximum: nat, s: Bytes): (r: Parsed<u32>)
    ensures r.Parsed? ==> s == BE32(r.value) + r.rest && r.value <= maximum && r.value <= |r.rest|
  {
    var (n, s1) :- GetU32(s);
    if n > maximum || n > |s1| then Failed(Error.LimitExceeded("length")) else Parsed(n, s1)
  }

  function PutU16Octets(v: Bytes, tail: Bytes): Bytes
    requires |v| < 0x1_0000
  {
    BE16(|v|) + (v + tail)
  }

  function GetU16Octets(maximum: nat, s: Bytes): (r: Parsed<Bytes>)
    requires maximum < 0x1_0000
    ensures r.Parsed? ==> |r.value| <= maximum && s == PutU16Octets(r.value, r.rest)
  {
    var (n, s1) :- GetU16(s);
    if n > maximum then Failed(Error.LimitExceeded("octets")) else Take(n, s1)
  }

  lemma GotU16Octets(maximum: nat, v: Bytes, tail: Bytes)
    requires |v| <= maximum < 0x1_0000
    ensures GetU16Octets(maximum, PutU16Octets(v, tail)) == Parsed(v, tail)
  {
    GotU16(|v|, v + tail);
    TakeTook(v, tail);
  }

  function PutU8Octets(v: Bytes, tail: Bytes): Bytes
    requires |v| < 0x100
  {
    [|v|] + (v + tail)
  }

  function GetU8Octets(maximum: nat, s: Bytes): (r: Parsed<Bytes>)
    requires maximum < 0x100
    ensures r.Parsed? ==> |r.value| <= maximum && s == PutU8Octets(r.value, r.rest)
  {
    var (n, s1) :- GetCount(maximum, s);
    Take(n, s1)
  }

  lemma GotU8Octets(maximum: nat, v: Bytes, tail: Bytes)
    requires |v| <= maximum < 0x100
    ensures GetU8Octets(maximum, PutU8Octets(v, tail)) == Parsed(v, tail)
  {
    GotCount(maximum, |v|, v + tail);
    TakeTook(v, tail);
  }

  // ---- Optional fields ----

  function PutText(text: Option<Text>, tail: Bytes): Bytes
    requires text.Some? ==> |text.value| < 0x1_0000
  {
    match text
    case None => PutBool(false, tail)
    case Some(t) => PutBool(true, BE16(|t|) + (t + tail))
  }

  function GetText(maximum: nat, s: Bytes): (r: Parsed<Option<Text>>)
    requires maximum < 0x1_0000
    ensures r.Parsed? ==>
              && ValidateText(r.value, maximum, "text").Pass?
              && s == PutText(r.value, r.rest)
  {
    var (present, s1) :- GetBool(s);
    if !present then
      Parsed(None, s1)
    else
      var (n, s2) :- GetU16(s1);
      if n > maximum then
        Failed(Error.LimitExceeded("text"))
      else
        var (t, s3) :- Take(n, s2);
        if !ValidUtf8(t) then Failed(Malformed("UTF-8"))
        else if HasControl(t) then Failed(Error.LimitExceeded("text"))
        else Parsed(Some(t), s3)
  }

  lemma GotText(maximum: nat, text: Option<Text>, field: string, tail: Bytes)
    requires maximum < 0x1_0000 && ValidateText(text, maximum, field).Pass?
    ensures GetText(maximum, PutText(text, tail)) == Parsed(text, tail)
  {
    if text.Some? {
      var t := text.value;
      GotBool(true, BE16(|t|) + (t + tail));
      GotU16(|t|, t + tail);
      TakeTook(t, tail);
    } else {
      GotBool(false, tail);
    }
  }

  function PutOptionU64(v: Option<u64>, tail: Bytes): Bytes {
    match v
    case None => PutBool(false, tail)
    case Some(n) => PutBool(true, BE64(n) + tail)
  }

  function GetOptionU64(s: Bytes): (r: Parsed<Option<u64>>)
    ensures r.Parsed? ==> s == PutOptionU64(r.value, r.rest)
  {
    var (present, s1) :- GetBool(s);
    if !present then
      Parsed(None, s1)
    else
      var (n, s2) :- GetU64(s1);
      Parsed(Some(n), s2)
  }

  lemma GotOptionU64(v: Option<u64>, tail: Bytes)
    ensures GetOptionU64(PutOptionU64(v, tail)) == Parsed(v, tail)
  {
    if v.Some? {
      GotBool(true, BE64(v.value) + tail);
      GotU64(v.value, tail);
    } else {
      GotBool(false, tail);
    }
  }

  function PutOptionArray(v: Option<Octets32>, tail: Bytes): Bytes {
    match v
    case None => PutBool(false, tail)
    case Some(a) => PutBool(true, a + tail)
  }

  function GetOptionArray(s: Bytes): (r: Parsed<Option<Octets32>>)
    ensures r.Parsed? ==> s == PutOptionArray(r.value, r.rest)
  {
    var (present, s1) :- GetBool(s);
    if !present then
      Parsed(None, s1)
    else
      var (a, s2) :- GetArray32(s1);
      Parsed(Some(a), s2)
  }

  lemma GotOptionArray(v: Option<Octets32>, tail: Bytes)
    ensures GetOptionArray(PutOptionArray(v, tail)) == Parsed(v, tail)
  {
    if v.Some? {
      GotBool(true, v.value + tail);
      GotArray32(v.value, tail);
    } else {
      GotBool(false, tail);
    }
  }

  // ---- Repeated fields ----

  function PutMany<T>(put: (T, Bytes) -> Bytes, xs: seq<T>, tail: Bytes): Bytes {
    if xs == [] then tail else put(xs[0], PutMany(put, xs[1..], tail))
  }

  function GetMany<T>(get: Bytes -> Parsed<T>, n: nat, s: Bytes): Parsed<seq<T>> {
    if n == 0 then
      Parsed([], s)
    else
      var (x, s1) :- get(s);
      var (xs, s2) :- GetMany(get, n - 1, s1);
      Parsed([x] + xs, s2)
  }

  ghost predicate Canonical<T(!new)>(get: Bytes -> Parsed<T>, put: (T, Bytes) -> Bytes) {
    forall s: Bytes :: get(s).Parsed? ==> s == put(get(s).value, get(s).rest)
  }

  ghost predicate RoundTrips<T(!new)>(get: Bytes -> Parsed<T>, put: (T, Bytes) -> Bytes) {
    forall x: T, tail: Bytes :: get(put(x, tail)) == Parsed(x, tail)
  }

  lemma {:induction false} ManyCanonical<T(!new)>(get: Bytes -> Parsed<T>, put: (T, Bytes) -> Bytes, n: nat, s: Bytes)
    requires Canonical(get, put)
    ensures var r := GetMany(get, n, s); r.Parsed? ==> |r.value| == n && s == PutMany(put, r.value, r.rest)
  {
    if n > 0 && GetMany(get, n, s).Parsed? {
      ManyCanonical(get, put, n - 1, get(s).rest);
      var xs := GetMany(get, n, s).value;
      assert xs[1..] == GetMany(get, n - 1, get(s).rest).value;
    }
  }

  lemma {:induction false} GotMany<T(!new)>(get: Bytes -> Parsed<T>, put: (T, Bytes) -> Bytes, xs: seq<T>, tail: Bytes)
    requires RoundTrips(get, put)
    ensures GetMany(get, |xs|, PutMany(put, xs, tail)) == Parsed(xs, tail)
  {
    if xs != [] {
      GotMany(get, put, xs[1..], tail);
      assert get(put(xs[0], PutMany(put, xs[1..], tail))) == Parsed(xs[0], PutMany(put, xs[1..], tail));
      assert [xs[0]] + xs[1..] == xs;
    }
  }

  lemma {:induction false} ManySize<T>(put: (T, Bytes) -> Bytes, width: nat, xs: seq<T>, tail: Bytes)
    requires forall x, t :: |put(x, t)| == width + |t|
    ensures |PutMany(put, xs, tail)| == |xs| * width + |tail|
  {
    if xs != [] {
      ManySize(put, width, xs[1..], tail);
      assert |xs| * width == width + |xs[1..]| * width;
    }
  }
}
