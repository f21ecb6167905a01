/** Octets, fixed-width unsigned integers and their big-endian images. */
module Octets {
  import opened Wrappers

  const U64_MAX := 0xffff_ffff_ffff_ffff

  type byte = x: int | 0 <= x < 0x100
  type u16 = x: int | 0 <= x < 0x1_0000
  type u32 = x: int | 0 <= x < 0x1_0000_0000
  type u64 = x: int | 0 <= x <= U64_MAX

  type Bytes = seq<byte>
  type Octets16 = s: Bytes | |s| == 16 witness seq(16, _ => 0 as byte)
  type Octets32 = s: Bytes | |s| == 32 witness seq(32, _ => 0 as byte)

  /** A 256-bit digest function; nothing is known about its values. */
  type Hash = Bytes -> Octets32

  /** No other octet string has the digest of `s`. */
  ghost predicate NoCollision(sha: Hash, s: Bytes) {
    forall t: Bytes :: sha(t) == sha(s) ==> t == s
  }

  function BE16(n: u16): (r: Bytes)
    ensures |r| == 2
  {
    [n / 0x100, n % 0x100]
  }

  function BE32(n: u32): (r: Bytes)
    ensures |r| == 4
  {
    BE16(n / 0x1_0000) + BE16(n % 0x1_0000)
  }

  function BE64(n: u64): (r: Bytes)
    ensures |r| == 8
  {
    BE32(n / 0x1_0000_0000) + BE32(n % 0x1_0000_0000)
  }

  function FromBE16(s: Bytes): (n: u16)
    requires |s| == 2
    ensures BE16(n) == s
  {
    var high: int, low: int := s[0], s[1];
    high * 0x100 + low
  }

  function FromBE32(s: Bytes): (n: u32)
    requires |s| == 4
    ensures BE32(n) == s
  {
    var high: int, low: int := FromBE16(s[..2]), FromBE16(s[2..]);
    var n := high * 0x1_0000 + low;
    assert n / 0x1_0000 == high && n % 0x1_0000 == low;
    n
  }

  function FromBE64(s: Bytes): (n: u64)
    requires |s| == 8
    ensures BE64(n) == s
  {
    var high: int, low: int := FromBE32(s[..4]), FromBE32(s[4..]);
    var n := high * 0x1_0000_0000 + low;
    assert n / 0x1_0000_0000 == high && n % 0x1_0000_0000 == low;
    n
  }

  lemma BE16Injective(m: u16, n: u16)
    requires BE16(m) == BE16(n)
    ensures m == n
  {
    assert BE16(m)[0] == BE16(n)[0] && BE16(m)[1] == BE16(n)[1];
  }

  lemma BE32Injective(m: u32, n: u32)
    requires BE32(m) == BE32(n)
    ensures m == n
  {
    assert BE32(m)[..2] == BE16(m / 0x1_0000) && BE32(m)[2..] == BE16(m % 0x1_0000);
    assert BE32(n)[..2] == BE16(n / 0x1_0000) && BE32(n)[2..] == BE16(n % 0x1_0000);
    BE16Injective(m / 0x1_0000, n / 0x1_0000);
    BE16Injective(m % 0x1_0000, n % 0x1_0000);
  }

  lemma BE64Injective(m: u64, n: u64)
    requires BE64(m) == BE64(n)
    ensures m == n
  {
    assert BE64(m)[..4] == BE32(m / 0x1_0000_0000) && BE64(m)[4..] == BE32(m % 0x1_0000_0000);
    assert BE64(n)[..4] == BE32(n / 0x1_0000_0000) && BE64(n)[4..] == BE32(n % 0x1_0000_0000);
    BE32Injective(m / 0x1_0000_0000, n / 0x1_0000_0000);
    BE32Injective(m % 0x1_0000_0000, n % 0x1_0000_0000);
  }

  /** Two concatenations whose first parts have one length agree part by part. */
  lemma ConcatInjective<T>(a: seq<T>, b: seq<T>, c: seq<T>, d: seq<T>)
    requires |a| == |c| && a + b == c + d
    ensures a == c && b == d
  {
    assert (a + b)[..|a|] == a && (a + b)[|a|..] == b;
    assert (c + d)[..|c|] == c && (c + d)[|c|..] == d;
  }

  /** Lexicographic order on octet strings, the order of fixed-size octet arrays. */
  predicate LexLess(a: Bytes, b: Bytes)
    decreases |b|
  {
    |b| > 0 && (|a| == 0 || a[0] < b[0] || (a[0] == b[0] && LexLess(a[1..], b[1..])))
  }

  lemma {:induction false} LexTotal(a: Bytes, b: Bytes)
    ensures LexLess(a, b) || a == b || LexLess(b, a)
    ensures !(LexLess(a, b) && LexLess(b, a))
    ensures !LexLess(a, a)
    decreases |a|
  {
    if |a| > 0 {
      LexTotal(a[1..], a[1..]);
      if |b| > 0 && a[0] == b[0] {
        LexTotal(a[1..], b[1..]);
        assert a == [a[0]] + a[1..] && b == [b[0]] + b[1..];
      }
    }
  }

  lemma {:induction false} LexTransitive(a: Bytes, b: Bytes, c: Bytes)
    requires LexLess(a, b) && LexLess(b, c)
    ensures LexLess(a, c)
    decreases |a|
  {
    if |a| > 0 && a[0] == b[0] == c[0] {
      LexTransitive(a[1..], b[1..], c[1..]);
    }
  }

  /** Concatenations whose first parts have one length are ordered part by part. */
  lemma {:induction false} LexConcat(a: Bytes, b: Bytes, c: Bytes, d: Bytes)
    requires |a| == |c|
    ensures LexLess(a + b, c + d) <==> LexLess(a, c) || (a == c && LexLess(b, d))
    decreases |a|
  {
    if a == [] {
      assert a + b == b && c + d == d;
    } else {
      assert (a + b)[1..] == a[1..] + b && (c + d)[1..] == c[1..] + d;
      assert a == [a[0]] + a[1..] && c == [c[0]] + c[1..];
      LexConcat(a[1..], b, c[1..], d);
    }
  }

  lemma LexOf16(m: u16, n: u16)
    ensures LexLess(BE16(m), BE16(n)) <==> m < n
  {
    var x, y := BE16(m), BE16(n);
    assert LexLess(x[1..], y[1..]) <==> x[1] < y[1] by {
      assert x[1..][1..] == [] && y[1..][1..] == [];
    }
    assert m == m / 0x100 * 0x100 + m % 0x100 && n == n / 0x100 * 0x100 + n % 0x100;
  }

  /** Big-endian images are ordered as their numbers. */
  lemma LexOf32(m: u32, n: u32)
    ensures LexLess(BE32(m), BE32(n)) <==> m < n
  {
    LexConcat(BE16(m / 0x1_0000), BE16(m % 0x1_0000), BE16(n / 0x1_0000), BE16(n % 0x1_0000));
    LexOf16(m / 0x1_0000, n / 0x1_0000);
    LexOf16(m % 0x1_0000, n % 0x1_0000);
    if BE16(m / 0x1_0000) == BE16(n / 0x1_0000) {
      BE16Injective(m / 0x1_0000, n / 0x1_0000);
    }
  }
}
