/** The text check is exact: valid octets are the UTF-8 images of Unicode scalar values, and the control test is one on those values. */
module Texts {
  import opened Wrappers
  import opened Octets
  import opened Operations

  /** A code point that is not a surrogate (section 3.9 of the Unicode Standard). */
  predicate Scalar(c: nat) {
    c <= 0x10_ffff && !(0xd800 <= c <= 0xdfff)
  }

  predicate Control(c: nat) {
    c <= 0x1f || 0x7f <= c <= 0x9f
  }

  /** The scalar value in six-bit groups behind a first octet that gives their number. */
  function ScalarImage(c: nat): (r: Bytes)
    requires Scalar(c)
  {
    if c < 0x80 then [c]
    else if c < 0x800 then [0xc0 + c / 0x40, 0x80 + c % 0x40]
    else if c < 0x1_0000 then [0xe0 + c / 0x40 / 0x40, 0x80 + c / 0x40 % 0x40, 0x80 + c % 0x40]
    else [0xf0 + c / 0x40 / 0x40 / 0x40, 0x80 + c / 0x40 / 0x40 % 0x40, 0x80 + c / 0x40 % 0x40, 0x80 + c % 0x40]
  }

  ghost predicate Scalars(cs: seq<nat>) {
    forall c | c in cs :: Scalar(c)
  }

  ghost function TextImage(cs: seq<nat>): Bytes
    requires Scalars(cs)
  {
    if cs == [] then [] else ScalarImage(cs[0]) + TextImage(cs[1..])
  }

  ghost predicate Spells(cs: seq<nat>, s: Bytes) {
    Scalars(cs) && TextImage(cs) == s
  }

  /** The first octets of a control's image, as the check looks at them. */
  predicate StartsWithControl(s: Bytes)
    requires Utf8Width(s) > 0
  {
    s[0] < 0x20 || s[0] == 0x7f || (s[0] == 0xc2 && s[1] < 0xa0)
  }

  lemma ScalarIsRead(c: nat, tail: Bytes)
    requires Scalar(c)
    ensures var s := ScalarImage(c) + tail;
            && Utf8Width(s) == |ScalarImage(c)| > 0 && s[Utf8Width(s)..] == tail
            && (StartsWithControl(s) <==> Control(c))
  {
    var s := ScalarImage(c) + tail;
    assert s[|ScalarImage(c)|..] == tail;
    assert c == c / 0x40 * 0x40 + c % 0x40;
    if 0x80 <= c < 0x800 {
      assert s[0] == 0xc0 + c / 0x40 && s[1] == 0x80 + c % 0x40;
    }
  }

  /** A number with one more six-bit group behind it. */
  function Grouped(high: nat, low: nat): (n: nat)
    requires low < 0x40
    ensures n / 0x40 == high && n % 0x40 == low
  {
    high * 0x40 + low
  }

  lemma WidthReads(s: Bytes) returns (c: nat)
    requires Utf8Width(s) > 0
    ensures Scalar(c) && ScalarImage(c) == s[..Utf8Width(s)]
  {
    if Utf8Width(s) == 1 {
      c := s[0];
    } else if Utf8Width(s) == 2 {
      var a: int, b: int := s[0], s[1];
      c := Grouped(a - 0xc0, b - 0x80);
    } else if Utf8Width(s) == 3 {
      c := ThreeRead(s[0], s[1], s[2]);
    } else {
      c := FourRead(s[0], s[1], s[2], s[3]);
    }
  }

  lemma ThreeRead(a: int, b: int, d: int) returns (c: nat)
    requires 0xe0 <= a <= 0xef && 0x80 <= b <= 0xbf && 0x80 <= d <= 0xbf && (a == 0xe0 ==> b >= 0xa0) && (a == 0xed ==> b <= 0x9f)
    ensures Scalar(c) && ScalarImage(c) == [a, b, d]
  {
    c := Grouped(Grouped(a - 0xe0, b - 0x80), d - 0x80);
  }

  lemma FourRead(a: int, b: int, d: int, e: int) returns (c: nat)
    requires 0xf0 <= a <= 0xf4 && 0x80 <= b <= 0xbf && 0x80 <= d <= 0xbf && 0x80 <= e <= 0xbf
    requires (a == 0xf0 ==> b >= 0x90) && (a == 0xf4 ==> b <= 0x8f)
    ensures Scalar(c) && ScalarImage(c) == [a, b, d, e]
  {
    c := Grouped(Grouped(Grouped(a - 0xf0, b - 0x80), d - 0x80), e - 0x80);
  }

  /** Every text of scalar values is accepted, and found to have a control exactly if one of its values is one. */
  lemma {:induction false} TextIsAccepted(cs: seq<nat>)
    requires Scalars(cs)
    ensures ValidUtf8(TextImage(cs))
    ensures HasControl(TextImage(cs)) <==> exists c | c in cs :: Control(c)
  {
    if cs != [] {
      ScalarIsRead(cs[0], TextImage(cs[1..]));
      TextIsAccepted(cs[1..]);
      assert cs == [cs[0]] + cs[1..];
      assert HasControl(TextImage(cs)) <==> StartsWithControl(TextImage(cs)) || HasControl(TextImage(cs[1..]));
    }
  }

  lemma {:induction false} AcceptedIsText(s: Bytes) returns (cs: seq<nat>)
    requires ValidUtf8(s)
    ensures Spells(cs, s)
    decreases |s|
  {
    cs := [];
    if s != [] {
      var c := WidthReads(s);
      var rest := AcceptedIsText(s[Utf8Width(s)..]);
      cs := [c] + rest;
      assert cs[1..] == rest;
      assert s == s[..Utf8Width(s)] + s[Utf8Width(s)..];
    }
  }

  /** The text check accepts exactly the UTF-8 images of sequences of scalar values. */
  lemma TextMeans(s: Bytes)
    ensures ValidUtf8(s) <==> exists cs :: Spells(cs, s)
  {
    if ValidUtf8(s) {
      var cs := AcceptedIsText(s);
    }
    forall cs | Spells(cs, s)
      ensures ValidUtf8(s)
    {
      TextIsAccepted(cs);
    }
  }

  /** A text passes within a limit exactly if it is no longer and no scalar value of it is a control. */
  lemma ValidTextMeans(cs: seq<nat>, maximum: nat, field: string)
    requires Scalars(cs)
    ensures ValidUtf8(TextImage(cs))
    ensures ValidateText(Some(TextImage(cs)), maximum, field).Pass? <==> |TextImage(cs)| <= maximum && forall c | c in cs :: !Control(c)
  {
    TextIsAccepted(cs);
  }
}
