/**
 UTF-8 as section 3 of RFC 3629 defines it. A Rust `String` is a byte vector that is
 always valid UTF-8; here it is a `string` of Unicode scalar values, and `Encode`
 gives its bytes.
 */
module Utf8 {
  import opened Common

  // ---------------------------------------------------------------- encoding

  /** The bytes of one scalar value. */
  function EncodeChar(c: char): (bs: seq<byte>)
    ensures 1 <= |bs| <= 4
    ensures c as int < 0x80 ==> bs == [c as int]
    ensures c as int >= 0x80 ==> forall k :: 0 <= k < |bs| ==> bs[k] >= 0x80
  {
    var n := c as int;
    if n < 0x80 then [n]
    else if n < 0x800 then [0xC0 + n / 64, 0x80 + n % 64]
    else if n < 0x1_0000 then [0xE0 + n / 4096, 0x80 + n / 64 % 64, 0x80 + n % 64]
    else [0xF0 + n / 262144, 0x80 + n / 4096 % 64, 0x80 + n / 64 % 64, 0x80 + n % 64]
  }

  function Encode(s: string): (bs: seq<byte>)
    ensures |bs| >= |s|
  {
    if s == "" then [] else EncodeChar(s[0]) + Encode(s[1..])
  }

  // ---------------------------------------------------------------- decoding

  predicate Scalar(n: int) { 0 <= n < 0xD800 || 0xE000 <= n < 0x11_0000 }

  predicate IsCont(b: byte) { 0x80 <= b < 0xC0 }

  /**
   How many bytes the well-formed character at the head of `bs` takes, or 0 when there is none.
   The second byte's range excludes overlong forms, surrogates and values above U+10FFFF.
   */
  function HeadLength(bs: seq<byte>): (k: nat)
    ensures k <= 4 && k <= |bs|
  {
    if |bs| >= 1 && bs[0] < 0x80 then 1
    else if |bs| >= 2 && 0xC2 <= bs[0] < 0xE0 && IsCont(bs[1]) then 2
    else if |bs| >= 3 && 0xE0 <= bs[0] < 0xF0 && IsCont(bs[1]) && IsCont(bs[2])
            && (bs[0] == 0xE0 ==> bs[1] >= 0xA0) && (bs[0] == 0xED ==> bs[1] < 0xA0) then 3
    else if |bs| >= 4 && 0xF0 <= bs[0] < 0xF5 && IsCont(bs[1]) && IsCont(bs[2]) && IsCont(bs[3])
            && (bs[0] == 0xF0 ==> bs[1] >= 0x90) && (bs[0] == 0xF4 ==> bs[1] < 0x90) then 4
    else 0
  }

  lemma Split64(q: int, r: int)
    requires 0 <= r < 64
    ensures (q * 64 + r) / 64 == q && (q * 64 + r) % 64 == r
  {
  }

  /** Base-64 digits of a number: the arithmetic behind the two-, three- and four-byte forms. */
  lemma Base64Digits(a: int, b: int, c: int, d: int)
    requires 0 <= a && 0 <= b < 64 && 0 <= c < 64 && 0 <= d < 64
    ensures var n := a * 262144 + b * 4096 + c * 64 + d;
            n / 262144 == a && n / 4096 % 64 == b && n / 64 % 64 == c && n % 64 == d
            && n / 4096 == a * 64 + b && n / 64 == a * 4096 + b * 64 + c
  {
    var n := a * 262144 + b * 4096 + c * 64 + d;
    Split64(a * 4096 + b * 64 + c, d);
    Split64(a * 64 + b, c);
    Split64(a, b);
    DivTwice(n);
  }

  lemma DivTwice(n: int)
    ensures n / 4096 == n / 64 / 64 && n / 262144 == n / 4096 / 64
  {
  }

  /** The scalar value of the well-formed character at the head of `bs`. */
  function HeadScalar(bs: seq<byte>): (n: int)
    requires HeadLength(bs) > 0
    ensures Scalar(n)
  {
    var k := HeadLength(bs);
    var b0: int := bs[0];
    var b1: int := if k > 1 then bs[1] - 0x80 else 0;
    var b2: int := if k > 2 then bs[2] - 0x80 else 0;
    var b3: int := if k > 3 then bs[3] - 0x80 else 0;
    if k == 1 then b0
    else if k == 2 then (b0 - 0xC0) * 64 + b1
    else if k == 3 then (b0 - 0xE0) * 4096 + b1 * 64 + b2
    else (b0 - 0xF0) * 262144 + b1 * 4096 + b2 * 64 + b3
  }

  function HeadChar(bs: seq<byte>): (c: char)
    requires HeadLength(bs) > 0
  {
    HeadScalar(bs) as char
  }

  /** A well-formed character is the encoding of the scalar value it is read as. */
  lemma EncodeHeadChar(bs: seq<byte>)
    requires HeadLength(bs) > 0
    ensures EncodeChar(HeadChar(bs)) == bs[..HeadLength(bs)]
  {
    var k := HeadLength(bs);
    if k == 2 {
      Encode2(bs[0], bs[1]);
    } else if k == 3 {
      Encode3(bs[0], bs[1], bs[2]);
    } else if k == 4 {
      Encode4(bs[0], bs[1], bs[2], bs[3]);
    }
    hide HeadLength, EncodeChar;
    assert HeadChar(bs) as int == HeadScalar(bs);
  }

  lemma Encode2(b0: byte, b1: byte)
    requires 0xC2 <= b0 < 0xE0 && IsCont(b1)
    ensures var n := (b0 - 0xC0) * 64 + (b1 - 0x80); Scalar(n) && EncodeChar(n as char) == [b0, b1]
  {
    Base64Digits(0, 0, b0 - 0xC0, b1 - 0x80);
  }

  lemma Encode3(b0: byte, b1: byte, b2: byte)
    requires 0xE0 <= b0 < 0xF0 && IsCont(b1) && IsCont(b2)
    requires (b0 == 0xE0 ==> b1 >= 0xA0) && (b0 == 0xED ==> b1 < 0xA0)
    ensures var n := (b0 - 0xE0) * 4096 + (b1 - 0x80) * 64 + (b2 - 0x80); Scalar(n) && EncodeChar(n as char) == [b0, b1, b2]
  {
    Base64Digits(0, b0 - 0xE0, b1 - 0x80, b2 - 0x80);
  }

  lemma Encode4(b0: byte, b1: byte, b2: byte, b3: byte)
    requires 0xF0 <= b0 < 0xF5 && IsCont(b1) && IsCont(b2) && IsCont(b3)
    requires (b0 == 0xF0 ==> b1 >= 0x90) && (b0 == 0xF4 ==> b1 < 0x90)
    ensures var n := (b0 - 0xF0) * 262144 + (b1 - 0x80) * 4096 + (b2 - 0x80) * 64 + (b3 - 0x80);
            Scalar(n) && EncodeChar(n as char) == [b0, b1, b2, b3]
  {
    Base64Digits(b0 - 0xF0, b1 - 0x80, b2 - 0x80, b3 - 0x80);
  }

  predicate Valid(bs: seq<byte>) {
    bs == [] || (HeadLength(bs) > 0 && Valid(bs[HeadLength(bs)..]))
  }

  /** `String::from_utf8`: the string, or nothing when the bytes are not UTF-8. */
  function Decode(bs: seq<byte>): (r: Option<string>)
    ensures r.Some? <==> Valid(bs)
  {
    if bs == [] then Some("")
    else if HeadLength(bs) == 0 then None
    else
      match Decode(bs[HeadLength(bs)..])
      case None => None
      case Some(rest) => Some([HeadChar(bs)] + rest)
  }

  // ---------------------------------------------------------------- facts

  lemma EncodeStep(s: string)
    ensures Encode("") == []
    ensures s != "" ==> Encode(s) == EncodeChar(s[0]) + Encode(s[1..])
  {
  }

  lemma {:induction false} EncodeConcat(s: string, t: string)
    ensures Encode(s + t) == Encode(s) + Encode(t)
  {
    hide EncodeChar, Encode;
    EncodeStep(s);
    if s == "" {
      NothingAndMore(t);
      NothingAndMore(Encode(t));
    } else {
      EncodeStep(s + t);
      FirstOfConcat(s, t);
      EncodeConcat(s[1..], t);
      Regroup(EncodeChar(s[0]), Encode(s[1..]), Encode(t));
    }
  }

  lemma EncodeOne(c: char)
    ensures Encode([c]) == EncodeChar(c)
  {
    assert [c][1..] == "";
  }

  lemma Join64(n: int, m: int)
    requires n / 64 == m / 64 && n % 64 == m % 64
    ensures n == m
  {
  }

  lemma EncodeCharInjective(c: char, d: char)
    requires EncodeChar(c) == EncodeChar(d)
    ensures c == d
  {
    var n, m, e, f := c as int, d as int, EncodeChar(c), EncodeChar(d);
    assert e[0] == f[0];
    if |e| > 1 { assert e[1] == f[1]; }
    if |e| > 2 { assert e[2] == f[2]; }
    if |e| > 3 { assert e[3] == f[3]; }
    DivTwice(n);
    DivTwice(m);
    if |e| > 3 { Join64(n / 4096, m / 4096); }
    if |e| > 2 { Join64(n / 64, m / 64); }
    if |e| > 1 { Join64(n, m); }
    assert n == m;
  }

  /** A character followed by anything is read back as that character. */
  lemma HeadOfEncodeChar(c: char, rest: seq<byte>)
    ensures HeadLength(EncodeChar(c) + rest) == |EncodeChar(c)|
    ensures HeadChar(EncodeChar(c) + rest) == c
  {
    hide *;
    var bs := EncodeChar(c) + rest;
    HeadLengthOfEncodeChar(c, rest);
    EncodeHeadChar(bs);
    EncodeCharInjective(HeadChar(bs), c);
  }

  /** The bytes of a scalar value are well-formed: lead and continuation bytes in their ranges. */
  lemma EncodeCharShape(c: char)
    ensures HeadLength(EncodeChar(c)) == |EncodeChar(c)|
  {
    var n := c as int;
    if n >= 0x80 {
      Ranges(n);
    }
  }

  lemma Ranges(n: int)
    requires 0x80 <= n && Scalar(n)
    ensures n < 0x800 ==> 2 <= n / 64 < 32
    ensures 0x800 <= n < 0x1_0000 ==>
              && 0 <= n / 4096 < 16 && (n / 4096 == 0 ==> n / 64 % 64 >= 32) && (n / 4096 == 13 ==> n / 64 % 64 < 32)
    ensures n >= 0x1_0000 ==>
              && 0 <= n / 262144 < 5 && (n / 262144 == 0 ==> n / 4096 % 64 >= 16) && (n / 262144 == 4 ==> n / 4096 % 64 < 16)
  {
  }

  lemma HeadLengthOfEncodeChar(c: char, rest: seq<byte>)
    ensures HeadLength(EncodeChar(c) + rest) == |EncodeChar(c)|
  {
    hide EncodeChar;
    EncodeCharShape(c);
    var e := EncodeChar(c);
    var bs := e + rest;
    assert bs[0] == e[0];
    if |e| > 1 { assert bs[1] == e[1]; }
    if |e| > 2 { assert bs[2] == e[2]; }
    if |e| > 3 { assert bs[3] == e[3]; }
  }

  /** Decoding undoes encoding. */
  lemma {:induction false} DecodeEncode(s: string)
    ensures Decode(Encode(s)) == Some(s)
  {
    hide EncodeChar, HeadLength, HeadChar;
    if s != "" {
      var bs, k := Encode(s), |EncodeChar(s[0])|;
      DecodeEncode(s[1..]);
      HeadOfEncodeChar(s[0], Encode(s[1..]));
      assert bs[k..] == Encode(s[1..]);
      assert s == [s[0]] + s[1..];
    }
  }

  /** Encoding undoes decoding, so the two are inverse bijections between strings and valid bytes. */
  lemma {:induction false} EncodeDecode(bs: seq<byte>)
    requires Valid(bs)
    ensures Encode(Decode(bs).value) == bs
  {
    hide EncodeChar, HeadLength, HeadChar;
    if bs != [] {
      var k := HeadLength(bs);
      EncodeDecode(bs[k..]);
      EncodeHeadChar(bs);
      assert Decode(bs).value[1..] == Decode(bs[k..]).value;
      assert bs == bs[..k] + bs[k..];
    }
  }

  lemma ValidEncode(s: string)
    ensures Valid(Encode(s))
  {
    DecodeEncode(s);
  }

  lemma {:induction false} ValidConcat(a: seq<byte>, b: seq<byte>)
    requires Valid(a) && Valid(b)
    ensures Valid(a + b)
  {
    EncodeDecode(a);
    EncodeDecode(b);
    EncodeConcat(Decode(a).value, Decode(b).value);
    ValidEncode(Decode(a).value + Decode(b).value);
  }
}
