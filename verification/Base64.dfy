/** The Base64 program, against the decoding rules of sections 3 and 4 of RFC 4648. */
module Base64 {
  import opened Common

  const PAD: bv8 := 61

  // The four six-bit groups of three bytes, and the three bytes of four groups.
  function Group0(b0: bv8): bv8 { b0 >> 2 }
  function Group1(b0: bv8, b1: bv8): bv8 { ((b0 & 3) << 4) | (b1 >> 4) }
  function Group2(b1: bv8, b2: bv8): bv8 { ((b1 & 15) << 2) | (b2 >> 6) }
  function Group3(b2: bv8): bv8 { b2 & 63 }
  function Byte0(g0: bv8, g1: bv8): bv8 { (g0 << 2) | (g1 >> 4) }
  function Byte1(g1: bv8, g2: bv8): bv8 { (g1 << 4) | (g2 >> 2) }
  function Byte2(g2: bv8, g3: bv8): bv8 { (g2 << 6) | g3 }

  lemma GroupsAreSixBits(b0: bv8, b1: bv8, b2: bv8)
    ensures Group0(b0) < 64 && Group1(b0, b1) < 64 && Group2(b1, b2) < 64 && Group3(b2) < 64
  {
  }

  lemma BytesFromGroups(b0: bv8, b1: bv8, b2: bv8)
    ensures Byte0(Group0(b0), Group1(b0, b1)) == b0
    ensures Byte1(Group1(b0, b1), Group2(b1, b2)) == b1
    ensures Byte2(Group2(b1, b2), Group3(b2)) == b2
  {
  }

  /** The alphabet; anything past it is the padding character. */
  function B64Char(idx: bv8): bv8 {
    if idx < 26 then idx + 65
    else if idx < 52 then idx + 71
    else if idx < 62 then idx - 4
    else if idx == 62 then 43
    else if idx == 63 then 47
    else 61
  }

  // ---------------------------------------------------------------- decoding

  /** The six bits a character of the alphabet stands for. */
  function SixBits(c: bv8): Option<bv8> {
    if 65 <= c <= 90 then Some(c - 65)
    else if 97 <= c <= 122 then Some(c - 71)
    else if 48 <= c <= 57 then Some(c + 4)
    else if c == 43 then Some(62)
    else if c == 47 then Some(63)
    else None
  }

  /** Two, three or four characters give one, two or three bytes. The bits left over must be zero, as section 3.5 asks. */
  function Decode2(c0: bv8, c1: bv8): Option<seq<bv8>> {
    match (SixBits(c0), SixBits(c1))
    case (Some(a), Some(b)) => if b & 15 == 0 then Some([Byte0(a, b)]) else None
    case _ => None
  }

  function Decode3(c0: bv8, c1: bv8, c2: bv8): Option<seq<bv8>> {
    match (SixBits(c0), SixBits(c1), SixBits(c2))
    case (Some(a), Some(b), Some(c)) => if c & 3 == 0 then Some([Byte0(a, b), Byte1(b, c)]) else None
    case _ => None
  }

  function Decode4(c0: bv8, c1: bv8, c2: bv8, c3: bv8): Option<seq<bv8>> {
    match (SixBits(c0), SixBits(c1), SixBits(c2), SixBits(c3))
    case (Some(a), Some(b), Some(c), Some(d)) =>
      Some([Byte0(a, b), Byte1(b, c), Byte2(c, d)])
    case _ => None
  }

  /** Groups of four; only the last may be padded. */
  function Decode(s: seq<bv8>): Option<seq<bv8>> {
    if s == [] then Some([])
    else if |s| < 4 then None
    else if |s| == 4 && s[3] == PAD then
      if s[2] == PAD then Decode2(s[0], s[1]) else Decode3(s[0], s[1], s[2])
    else
      match (Decode4(s[0], s[1], s[2], s[3]), Decode(s[4..]))
      case (Some(bytes), Some(rest)) => Some(bytes + rest)
      case _ => None
  }

  // ---------------------------------------------------------------- encoding

  /** The four characters for the bytes of `msg` from `i` on; a missing byte counts as zero and is padded. */
  function Quad(msg: seq<bv8>, i: nat): (q: seq<bv8>)
    requires i < |msg|
    ensures |q| == 4
  {
    var b0 := msg[i];
    var b1 := if i + 1 < |msg| then msg[i + 1] else 0;
    var b2 := if i + 2 < |msg| then msg[i + 2] else 0;
    [ B64Char(Group0(b0)),
      B64Char(Group1(b0, b1)),
      if i + 1 < |msg| then B64Char(Group2(b1, b2)) else PAD,
      if i + 2 < |msg| then B64Char(Group3(b2)) else PAD]
  }

  /** The text of the bytes from `i` on. */
  function Encode(msg: seq<bv8>, i: nat): (s: seq<bv8>)
    ensures i <= |msg| ==> |s| == (|msg| - i + 2) / 3 * 4
    decreases |msg| - i
  {
    if i >= |msg| then [] else Quad(msg, i) + Encode(msg, i + 3)
  }

  /** `*(out + o) = c; o = o + 1`. */
  method Put(out: array<bv8>, o: nat, c: bv8) returns (next: nat)
    requires o < out.Length
    modifies out
    ensures next == o + 1 && out[..next] == old(out[..o]) + [c]
  {
    out[o] := c;
    next := o + 1;
  }

  /** One turn of the loop writes four characters at `start`. */
  method WriteQuad(msg: seq<bv8>, i: nat, out: array<bv8>, start: nat) returns (o: nat)
    requires i < |msg| && start + 4 <= out.Length
    modifies out
    ensures o == start + 4
    ensures out[..o] == old(out[..start]) + Quad(msg, i)
  {
    hide B64Char, Group0, Group1, Group2, Group3;
    var b0, b1, b2 := msg[i], 0, 0;
    if i + 1 < |msg| { b1 := msg[i + 1]; }
    if i + 2 < |msg| { b2 := msg[i + 2]; }
    ghost var before := out[..start];
    o := Put(out, start, B64Char(Group0(b0)));
    o := Put(out, o, B64Char(Group1(b0, b1)));
    if i + 1 < |msg| {
      o := Put(out, o, B64Char(Group2(b1, b2)));
    } else {
      o := Put(out, o, 61);
    }
    if i + 2 < |msg| {
      o := Put(out, o, B64Char(Group3(b2)));
    } else {
      o := Put(out, o, 61);
    }
    ghost var q := Quad(msg, i);
    hide Quad;
    FourMore(before, q);
  }

  lemma FourMore(before: seq<bv8>, q: seq<bv8>)
    requires |q| == 4
    ensures before + [q[0]] + [q[1]] + [q[2]] + [q[3]] == before + q
  {
  }

  /** The loop: it stays inside the buffer and writes exactly the encoded text. */
  method Run(msg: seq<bv8>) returns (out: array<bv8>, outLen: nat)
    ensures outLen == (|msg| + 2) / 3 * 4 && out.Length == outLen + 1
    ensures out[..outLen] == Encode(msg, 0)
  {
    hide Quad, Encode;
    outLen := (|msg| + 2) / 3 * 4;
    out := new bv8[outLen + 1];
    var i, o := 0, 0;
    while i < |msg|
      invariant o + |Encode(msg, i)| == outLen
      invariant out[..o] + Encode(msg, i) == Encode(msg, 0)
    {
      EncodeStep(msg, i);
      ghost var done := out[..o];
      o := WriteQuad(msg, i, out, o);
      assert done + Quad(msg, i) + Encode(msg, i + 3) == done + Encode(msg, i);
      i := i + 3;
    }
    EncodeStep(msg, i);
  }

  lemma EncodeStep(msg: seq<bv8>, i: nat)
    ensures i < |msg| ==> Encode(msg, i) == Quad(msg, i) + Encode(msg, i + 3)
    ensures i >= |msg| ==> Encode(msg, i) == []
  {
  }

  // ---------------------------------------------------------------- decoding undoes encoding

  lemma CharReadsBack(i: bv8)
    requires i < 64
    ensures SixBits(B64Char(i)) == Some(i) && B64Char(i) != PAD
  {
  }

  lemma NoBitsLeft(b0: bv8, b1: bv8)
    ensures Group1(b0, 0) & 15 == 0 && Group2(b1, 0) & 3 == 0
  {
  }

  /** Three bytes, or two or one with zeros for the missing ones. */
  lemma QuadReadsBack(b0: bv8, b1: bv8, b2: bv8)
    ensures Decode4(B64Char(Group0(b0)), B64Char(Group1(b0, b1)), B64Char(Group2(b1, b2)), B64Char(Group3(b2))) == Some([b0, b1, b2])
    ensures b2 == 0 ==> Decode3(B64Char(Group0(b0)), B64Char(Group1(b0, b1)), B64Char(Group2(b1, b2))) == Some([b0, b1])
    ensures b1 == 0 ==> Decode2(B64Char(Group0(b0)), B64Char(Group1(b0, b1))) == Some([b0])
    ensures B64Char(Group2(b1, b2)) != PAD && B64Char(Group3(b2)) != PAD
  {
    hide B64Char, SixBits, Group0, Group1, Group2, Group3, Byte0, Byte1, Byte2;
    GroupsAreSixBits(b0, b1, b2);
    BytesFromGroups(b0, b1, b2);
    NoBitsLeft(b0, b1);
    CharReadsBack(Group0(b0));
    CharReadsBack(Group1(b0, b1));
    CharReadsBack(Group2(b1, b2));
    CharReadsBack(Group3(b2));
  }

  /** Every message is recovered from its encoding. */
  lemma {:induction false} DecodeEncode(msg: seq<bv8>, i: nat)
    requires i <= |msg|
    ensures Decode(Encode(msg, i)) == Some(msg[i..])
    decreases |msg| - i
  {
    hide B64Char, Decode2, Decode3, Decode4, Group0, Group1, Group2, Group3;
    if i < |msg| {
      var b1 := if i + 1 < |msg| then msg[i + 1] else 0;
      var b2 := if i + 2 < |msg| then msg[i + 2] else 0;
      QuadReadsBack(msg[i], b1, b2);
      var s := Encode(msg, i);
      if i + 3 <= |msg| {
        DecodeEncode(msg, i + 3);
        assert s[4..] == Encode(msg, i + 3);
        assert [msg[i], b1, b2] + msg[i + 3..] == msg[i..];
      } else if i + 2 == |msg| {
        assert s == Quad(msg, i) && msg[i..] == [msg[i], b1];
      } else {
        assert s == Quad(msg, i) && msg[i..] == [msg[i]];
      }
    } else {
      assert msg[i..] == [];
    }
  }

  // ---------------------------------------------------------------- encoding undoes decoding

  lemma CharOfBits(c: bv8)
    ensures SixBits(c).Some? ==> SixBits(c).value < 64 && B64Char(SixBits(c).value) == c
  {
  }

  lemma GroupsFromBytes(a: bv8, b: bv8, c: bv8, d: bv8)
    requires a < 64 && b < 64 && c < 64 && d < 64
    ensures Group0(Byte0(a, b)) == a && Group1(Byte0(a, b), Byte1(b, c)) == b
    ensures Group2(Byte1(b, c), Byte2(c, d)) == c && Group3(Byte2(c, d)) == d
  {
  }

  lemma GroupsFromFew(a: bv8, b: bv8, c: bv8)
    requires a < 64 && b < 64 && c < 64
    ensures b & 15 == 0 ==> Group1(Byte0(a, b), 0) == b
    ensures c & 3 == 0 ==> Group2(Byte1(b, c), 0) == c
  {
  }

  /** What a quadruple decodes to is encoded as that quadruple. */
  lemma QuadOfBytes(s: seq<bv8>, bytes: seq<bv8>)
    requires |s| == 4 && Decode(s) == Some(bytes)
    ensures 1 <= |bytes| <= 3 && Quad(bytes, 0) == s
  {
    hide SixBits, B64Char, Group0, Group1, Group2, Group3, Byte0, Byte1, Byte2;
    CharOfBits(s[0]);
    CharOfBits(s[1]);
    CharOfBits(s[2]);
    CharOfBits(s[3]);
    var a, b := SixBits(s[0]).value, SixBits(s[1]).value;
    if s[3] != PAD {
      assert s[4..] == [] && Decode([]) == Some([]);
      var c, d := SixBits(s[2]).value, SixBits(s[3]).value;
      GroupsFromBytes(a, b, c, d);
      assert [Byte0(a, b), Byte1(b, c), Byte2(c, d)] + [] == bytes;
    } else if s[2] != PAD {
      var c := SixBits(s[2]).value;
      GroupsFromBytes(a, b, c, 0);
      GroupsFromFew(a, b, c);
    } else {
      GroupsFromBytes(a, b, 0, 0);
      GroupsFromFew(a, b, 0);
    }
  }

  lemma {:induction false} EncodeShift(bytes: seq<bv8>, rest: seq<bv8>, i: nat)
    ensures Encode(bytes + rest, |bytes| + i) == Encode(rest, i)
    decreases |rest| - i
  {
    hide B64Char, Group0, Group1, Group2, Group3;
    if i < |rest| {
      EncodeShift(bytes, rest, i + 3);
      var all := bytes + rest;
      assert all[|bytes| + i] == rest[i];
      assert i + 1 < |rest| ==> all[|bytes| + i + 1] == rest[i + 1];
      assert i + 2 < |rest| ==> all[|bytes| + i + 2] == rest[i + 2];
      assert Quad(all, |bytes| + i) == Quad(rest, i);
    }
  }

  lemma LastQuad(s: seq<bv8>, bytes: seq<bv8>)
    requires 1 <= |bytes| <= 3 && Quad(bytes, 0) == s
    ensures Encode(bytes, 0) == s
  {
    hide Quad;
    EncodeStep(bytes, 0);
    EncodeStep(bytes, 3);
    assert s + [] == s;
  }

  /** Three bytes are encoded by themselves. */
  lemma EncodeFirst(first: seq<bv8>, rest: seq<bv8>)
    requires |first| == 3
    ensures Encode(first + rest, 0) == Quad(first, 0) + Encode(rest, 0)
  {
    hide Quad;
    EncodeShift(first, rest, 0);
    EncodeStep(first + rest, 0);
    QuadPrefix(first, rest);
  }

  /** Every text that decodes is the encoding of what it decodes to, so each message has one text. */
  lemma {:induction false} EncodeDecode(s: seq<bv8>)
    requires Decode(s).Some?
    ensures Encode(Decode(s).value, 0) == s
    decreases |s|
  {
    hide Decode2, Decode3, Quad;
    if s != [] {
      var bytes := Decode(s).value;
      if |s| == 4 {
        QuadOfBytes(s, bytes);
        LastQuad(s, bytes);
      } else {
        var first, rest := Decode4(s[0], s[1], s[2], s[3]).value, Decode(s[4..]).value;
        assert bytes == first + rest && |first| == 3;
        var q := s[..4];
        FirstQuad(s);
        QuadOfBytes(q, first);
        EncodeDecode(s[4..]);
        EncodeFirst(first, rest);
        assert q + s[4..] == s;
      }
    }
  }

  /** A quadruple that is not the last decodes the same by itself. */
  lemma FirstQuad(s: seq<bv8>)
    requires |s| > 4 && Decode(s).Some?
    ensures Decode4(s[0], s[1], s[2], s[3]).Some? && Decode(s[..4]) == Decode4(s[0], s[1], s[2], s[3])
  {
    hide Byte0, Byte1, Byte2;
    var q := s[..4];
    assert q[3] != PAD by { PadHasNoBits(); }
    assert q[4..] == [] && Decode([]) == Some([]);
    var bytes := Decode4(s[0], s[1], s[2], s[3]).value;
    assert bytes + [] == bytes;
  }

  lemma PadHasNoBits()
    ensures SixBits(PAD) == None
  {
  }

  lemma QuadPrefix(first: seq<bv8>, rest: seq<bv8>)
    requires |first| == 3
    ensures Quad(first + rest, 0) == Quad(first, 0)
  {
    hide B64Char, Group0, Group1, Group2, Group3;
  }
}
