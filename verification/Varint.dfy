/** Unsigned LEB128 integers (section 7.6 of DWARF Version 5) in their shortest form only. */
module Varint {
  import opened Wrappers
  import opened Octets
  import opened Operations
  import opened Wire

  /** The shortest form: seven bits an octet, least significant first, the high bit set on all but the last. */
  function Image(n: nat): Bytes {
    if n < 0x80 then [n] else [0x80 + n % 0x80] + Image(n / 0x80)
  }

  function Size(n: nat): (k: nat)
    ensures k >= 1
  {
    if n < 0x80 then 1 else 1 + Size(n / 0x80)
  }

  /** The closed form used for record lengths. */
  function LengthSize(n: nat): nat {
    if n < 0x80 then 1 else if n < 0x4000 then 2 else if n < 0x20_0000 then 3 else if n < 0x1000_0000 then 4 else 5
  }

  /** The integer spelled from the octet with index `k` on; the tenth octet carries one bit. */
  function Scan(s: Bytes, k: nat): (r: Parsed<nat>)
    requires k <= 9
    decreases 9 - k
  {
    if s == [] then
      Failed(Truncated)
    else if k == 9 && s[0] > 1 then
      Failed(Error.LimitExceeded("varint"))
    else if s[0] < 0x80 then
      Parsed(s[0], s[1..])
    else
      Scan(s[1..], k + 1).Map(n => s[0] - 0x80 + 0x80 * n)
  }

  /** The largest integer that can start at the octet with index `k`. */
  function Cap(k: nat): nat
    requires k <= 9
    decreases 9 - k
  {
    if k == 9 then 1 else 0x7f + 0x80 * Cap(k + 1)
  }

  lemma CapIsU64()
    ensures Cap(0) == U64_MAX
  {
    assert Cap(8) == 0xff && Cap(7) == 0x7fff && Cap(6) == 0x3f_ffff && Cap(5) == 0x1fff_ffff;
    assert Cap(4) == 0xf_ffff_ffff && Cap(3) == 0x7ff_ffff_ffff;
  }

  lemma {:induction false} ScanBounded(s: Bytes, k: nat)
    requires k <= 9 && Scan(s, k).Parsed?
    ensures Scan(s, k).value <= Cap(k) && |Scan(s, k).rest| < |s|
    decreases 9 - k
  {
    if s[0] >= 0x80 {
      ScanBounded(s[1..], k + 1);
    }
  }

  function Get(s: Bytes): (r: Parsed<u64>) {
    var scan := Scan(s, 0);
    if scan.Failed? then
      Failed(scan.error)
    else
      ScanBounded(s, 0);
      CapIsU64();
      if |s| - |scan.rest| != Size(scan.value) then Failed(NonCanonical("varint")) else Parsed(scan.value, scan.rest)
  }

  // ---- Inverse and shortest form ----

  lemma {:induction false} ImageSize(n: nat)
    ensures |Image(n)| == Size(n)
  {
    if n >= 0x80 {
      ImageSize(n / 0x80);
    }
  }

  lemma LengthSizeAgrees(n: nat)
    requires n < 0x8_0000_0000
    ensures LengthSize(n) == Size(n)
  {
    assert Size(n / 0x80) == if n / 0x80 < 0x80 then 1 else 1 + Size(n / 0x80 / 0x80);
    assert Size(n / 0x80 / 0x80) == if n / 0x80 / 0x80 < 0x80 then 1 else 1 + Size(n / 0x80 / 0x80 / 0x80);
    assert Size(n / 0x80 / 0x80 / 0x80) == if n / 0x80 / 0x80 / 0x80 < 0x80 then 1 else 1 + Size(n / 0x80 / 0x80 / 0x80 / 0x80);
  }

  lemma {:induction false} ScanUndoesImage(n: nat, k: nat, tail: Bytes)
    requires k <= 9 && n <= Cap(k)
    ensures Scan(Image(n) + tail, k) == Parsed(n, tail)
    decreases 9 - k
  {
    if n < 0x80 {
      assert (Image(n) + tail)[1..] == tail;
    } else {
      ScanUndoesImage(n / 0x80, k + 1, tail);
      assert (Image(n) + tail)[1..] == Image(n / 0x80) + tail;
    }
  }

  /** Every 64-bit integer is read back, with exactly its own octets consumed. */
  lemma GotVarint(n: u64, tail: Bytes)
    ensures Get(Image(n) + tail) == Parsed(n, tail)
  {
    CapIsU64();
    ScanUndoesImage(n, 0, tail);
    ImageSize(n);
  }

  lemma GroupSplit(low: nat, n: nat)
    requires low < 0x80
    ensures (low + 0x80 * n) / 0x80 == n && (low + 0x80 * n) % 0x80 == low
    ensures n > 0 ==> Size(low + 0x80 * n) == 1 + Size(n) && Image(low + 0x80 * n) == [0x80 + low] + Image(n)
    ensures n == 0 ==> Size(low + 0x80 * n) == 1
  {
  }

  /** A spelling of `n` that takes `width` octets is not too short, and is the shortest form if it has that form's length. */
  ghost predicate Spells(s: Bytes, n: nat, rest: Bytes) {
    && Size(n) <= |s| - |rest|
    && (Size(n) == |s| - |rest| ==> s == Image(n) + rest)
  }

  lemma SpellingGrows(s: Bytes, low: nat, n: nat, rest: Bytes)
    requires s != [] && low < 0x80 && s[0] == 0x80 + low && |rest| < |s| - 1
    requires Spells(s[1..], n, rest)
    ensures Spells(s, low + 0x80 * n, rest)
  {
    GroupSplit(low, n);
    if n > 0 && Size(n) == |s| - 1 - |rest| {
      assert s == [s[0]] + s[1..];
    }
  }

  /** However an integer is spelled, the spelling is at least as long as its shortest form and equals it at that length. */
  lemma {:induction false} SpellingNotShorter(s: Bytes, k: nat)
    requires k <= 9 && Scan(s, k).Parsed?
    ensures Spells(s, Scan(s, k).value, Scan(s, k).rest)
    decreases 9 - k
  {
    if s[0] < 0x80 {
      assert s == [s[0]] + s[1..];
    } else {
      SpellingNotShorter(s[1..], k + 1);
      ScanBounded(s[1..], k + 1);
      var later := Scan(s[1..], k + 1);
      SpellingGrows(s, s[0] - 0x80, later.value, later.rest);
    }
  }

  /** Only the shortest form is accepted. */
  lemma GetCanonical(s: Bytes)
    requires Get(s).Parsed?
    ensures s == Image(Get(s).value) + Get(s).rest
    ensures |s| - |Get(s).rest| == Size(Get(s).value)
  {
    SpellingNotShorter(s, 0);
  }

  // ---- The loops ----

  method PutVarint(output: Bytes, n: u64) returns (r: Bytes)
    ensures r == output + Image(n)
  {
    r := output;
    var value: nat := n;
    while true
      invariant r + Image(value) == output + Image(n)
      decreases value
    {
      var low := value % 0x80;
      var high := value / 0x80;
      if high == 0 {
        r := r + [low];
        return;
      }
      assert Image(value) == [low + 0x80] + Image(high);
      assert r + Image(value) == r + [low + 0x80] + Image(high);
      r := r + [low + 0x80];
      value := high;
    }
  }

  method VarintSize(n: u64) returns (size: nat)
    ensures size == Size(n)
  {
    size := 1;
    var value: nat := n;
    while value >= 0x80
      invariant size + Size(value) == 1 + Size(n)
    {
      value := value / 0x80;
      size := size + 1;
    }
  }

  /** The groups collected so far and the place value of the next one. */
  datatype Groups = Groups(value: nat, weight: nat) {
    function Join(group: nat): Groups {
      Groups(value + group * weight, weight * 0x80)
    }

    /** The outcome of a scan whose groups go above those collected. */
    function Above(scan: Parsed<nat>): Parsed<nat> {
      if scan.Parsed? then Parsed(value + weight * scan.value, scan.rest) else scan
    }
  }

  /** One more octet with its high bit set joins what was collected. */
  lemma JoinGroup(g: Groups, k: nat, s: Bytes, group: nat)
    requires k < 9 && s != [] && s[0] == 0x80 + group
    ensures g.Above(Scan(s, k)) == g.Join(group).Above(Scan(s[1..], k + 1))
  {
    var later := Scan(s[1..], k + 1);
    if later.Parsed? {
      var n := later.value;
      assert g.weight * (group + 0x80 * n) == g.weight * group + (g.weight * 0x80) * n;
    }
  }

  /** The octet that ends an integer, or the error of its absence or size. */
  method LastOctet(bytes: Bytes, position: nat, g: Groups, k: nat) returns (r: Result<nat, Error>)
    requires position <= |bytes| && k <= 9
    requires position < |bytes| ==> bytes[position] < 0x80 || k == 9
    ensures match g.Above(Scan(bytes[position..], k))
            case Parsed(n, rest) => r == Ok(n) && position < |bytes| && rest == bytes[position + 1..]
            case Failed(e) => r == Err(e)
  {
    if position == |bytes| {
      return Err(Truncated);
    }
    assert bytes[position..][1..] == bytes[position + 1..];
    if k == 9 && bytes[position] > 1 {
      return Err(Error.LimitExceeded("varint"));
    }
    var last: nat := bytes[position];
    r := Ok(g.value + g.weight * last);
  }

  /** Collects the octets that continue, then the last one. */
  method CollectOctets(bytes: Bytes, start: nat) returns (r: Result<nat, Error>, position: nat)
    requires start <= |bytes|
    ensures match Scan(bytes[start..], 0)
            case Parsed(n, rest) => r == Ok(n) && start < position <= |bytes| && rest == bytes[position..]
            case Failed(e) => r == Err(e)
  {
    position := start;
    var g, k := Groups(0, 1), 0;
    ghost var unread := bytes[start..];
    while position < |bytes| && bytes[position] >= 0x80 && k < 9
      invariant k <= 9 && position == start + k <= |bytes|
      invariant unread == bytes[position..]
      invariant Scan(bytes[start..], 0) == g.Above(Scan(unread, k))
      decreases 9 - k
    {
      JoinGroup(g, k, unread, bytes[position] - 0x80);
      g := g.Join(bytes[position] - 0x80);
      unread := unread[1..];
      position, k := position + 1, k + 1;
    }
    r := LastOctet(bytes, position, g, k);
    position := if r.Ok? then position + 1 else position;
  }

  method TakeVarint(bytes: Bytes, start: nat) returns (r: Result<u64, Error>, position: nat)
    requires start <= |bytes|
    ensures match Get(bytes[start..])
            case Parsed(n, rest) => r == Ok(n) && position <= |bytes| && rest == bytes[position..]
            case Failed(e) => r == Err(e)
  {
    var collected;
    collected, position := CollectOctets(bytes, start);
    if collected.Err? {
      return Err(collected.error), position;
    }
    ScanBounded(bytes[start..], 0);
    CapIsU64();
    var size := VarintSize(collected.value);
    r := if position - start != size then Err(NonCanonical("varint")) else Ok(collected.value);
  }
}
