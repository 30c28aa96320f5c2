/** The bit-serial CRC as the remainder of a polynomial over GF(2), the way section 8 of RFC 1952 and ISO 3309 define it. */
module Crc32Polynomial {
  import opened Crc32

  // ---------------------------------------------------------------- polynomials

  /** A polynomial is the set of the exponents whose coefficient is one. */
  function Plus(a: set<nat>, b: set<nat>): set<nat> { (a - b) + (b - a) }

  /** The product with x to the power `n`. */
  function Times(a: set<nat>, n: nat): set<nat> { set e | e in a :: e + n }

  /** x^32+x^26+x^23+x^22+x^16+x^12+x^11+x^10+x^8+x^7+x^5+x^4+x^2+x+1. */
  const G: set<nat> := {32, 26, 23, 22, 16, 12, 11, 10, 8, 7, 5, 4, 2, 1, 0}

  /** A sum of products of `G` with powers of x. */
  function Multiple(qs: seq<nat>): set<nat> {
    if qs == [] then {} else Plus(Multiple(qs[..|qs| - 1]), Times(G, qs[|qs| - 1]))
  }

  /** The two polynomials differ by a multiple of `G`. */
  ghost predicate Congruent(p: set<nat>, r: set<nat>) {
    exists qs :: p == Plus(r, Multiple(qs))
  }

  // ---------------------------------------------------------------- bits

  /** The low `n` bits, lowest first. */
  function Bits(x: bv32, n: nat): (bs: seq<bool>)
    ensures |bs| == n
    decreases n
  {
    if n == 0 then [] else [Odd(x)] + Bits(Half(x), n - 1)
  }

  predicate Coefficient(bs: seq<bool>, e: nat) { e < |bs| && bs[|bs| - 1 - e] }

  /** The polynomial of a list of bits, the first bit being the coefficient of the highest power. */
  function Polynomial(bs: seq<bool>): (p: set<nat>)
    ensures forall e :: e in p <==> Coefficient(bs, e)
  {
    set e: nat | e < |bs| && Coefficient(bs, e)
  }

  /** A register is read from its lowest bit, which stands for x^31. */
  function Register(x: bv32): set<nat> { Polynomial(Bits(x, 32)) }

  /** The bits of a message, each byte from its lowest bit. */
  function MessageBits(msg: seq<bv8>): (bs: seq<bool>)
    ensures |bs| == 8 * |msg|
  {
    if msg == [] then [] else MessageBits(msg[..|msg| - 1]) + Bits(msg[|msg| - 1] as bv32, 8)
  }

  function Below(n: nat): (p: set<nat>)
    ensures forall e: nat :: e in p <==> e < n
  {
    if n == 0 then {} else Below(n - 1) + {n - 1}
  }

  /** x^31+x^30+...+1. */
  function Ones(): set<nat> { Below(32) }

  // ---------------------------------------------------------------- laws

  lemma PlusLaws(a: set<nat>, b: set<nat>, c: set<nat>)
    ensures Plus(a, b) == Plus(b, a) && Plus(Plus(a, b), c) == Plus(a, Plus(b, c))
    ensures Plus(a, {}) == a && Plus(a, a) == {}
  {
  }

  lemma InTimes(a: set<nat>, n: nat, e: nat)
    ensures e in Times(a, n) <==> e >= n && e - n in a
  {
    if e >= n {
      assert e == (e - n) + n;
    }
  }

  lemma TimesPlus(a: set<nat>, b: set<nat>, n: nat)
    ensures Times(Plus(a, b), n) == Plus(Times(a, n), Times(b, n))
  {
    forall e: nat ensures e in Times(Plus(a, b), n) <==> e in Plus(Times(a, n), Times(b, n)) {
      InTimes(a, n, e);
      InTimes(b, n, e);
      InTimes(Plus(a, b), n, e);
    }
  }

  lemma TimesTimes(a: set<nat>, m: nat, n: nat)
    ensures Times(Times(a, m), n) == Times(a, m + n)
  {
    forall e: nat ensures e in Times(Times(a, m), n) <==> e in Times(a, m + n) {
      InTimes(a, m + n, e);
      InTimes(Times(a, m), n, e);
      if e >= n {
        InTimes(a, m, e - n);
      }
    }
  }

  lemma MultipleSnoc(qs: seq<nat>, q: nat)
    ensures Multiple(qs + [q]) == Plus(Multiple(qs), Times(G, q))
  {
    assert (qs + [q])[..|qs|] == qs;
  }

  // ---------------------------------------------------------------- remainders are unique

  predicate Increasing(qs: seq<nat>) {
    forall i, j :: 0 <= i < j < |qs| ==> qs[i] < qs[j]
  }

  /** Add a power, or cancel it if it is there. */
  function Insert(qs: seq<nat>, q: nat): seq<nat> {
    if qs == [] || qs[|qs| - 1] < q then qs + [q]
    else if qs[|qs| - 1] == q then qs[..|qs| - 1]
    else Insert(qs[..|qs| - 1], q) + [qs[|qs| - 1]]
  }

  lemma AppendIncreases(qs: seq<nat>, q: nat)
    requires Increasing(qs) && forall k :: k in qs ==> k < q
    ensures Increasing(qs + [q])
  {
    forall i, j | 0 <= i < j < |qs + [q]| ensures (qs + [q])[i] < (qs + [q])[j] {
      assert qs[i] in qs;
    }
  }

  lemma LastLargest(init: seq<nat>, last: nat)
    requires Increasing(init + [last])
    ensures Increasing(init) && forall k :: k in init ==> k < last
  {
    var qs := init + [last];
    assert forall i :: 0 <= i < |init| ==> qs[i] == init[i];
    forall k | k in init ensures k < last {
      var i :| 0 <= i < |init| && init[i] == k;
      assert qs[i] == k && qs[|init|] == last;
    }
  }

  lemma {:induction false} InsertIncreases(qs: seq<nat>, q: nat)
    requires Increasing(qs)
    ensures Increasing(Insert(qs, q)) && forall k :: k in Insert(qs, q) ==> k in qs || k == q
  {
    if qs == [] {
    } else {
      var init, last := qs[..|qs| - 1], qs[|qs| - 1];
      assert qs == init + [last];
      LastLargest(init, last);
      hide Increasing;
      if last < q {
        AppendIncreases(qs, q);
      } else if last > q {
        InsertIncreases(init, q);
        AppendIncreases(Insert(init, q), last);
      }
    }
  }

  lemma {:induction false} InsertAdds(qs: seq<nat>, q: nat)
    ensures Multiple(Insert(qs, q)) == Plus(Multiple(qs), Times(G, q))
  {
    hide Plus, Times;
    if qs == [] || qs[|qs| - 1] < q {
      MultipleSnoc(qs, q);
    } else {
      var init, last := qs[..|qs| - 1], qs[|qs| - 1];
      if last > q {
        InsertAdds(init, q);
        MultipleSnoc(Insert(init, q), last);
        SwapTerms(Multiple(init), Times(G, q), Times(G, last));
      } else {
        SwapTerms(Multiple(init), Times(G, q), Times(G, q));
      }
    }
  }

  lemma SwapTerms(m: set<nat>, a: set<nat>, b: set<nat>)
    ensures Plus(Plus(m, a), b) == Plus(Plus(m, b), a) && Plus(Plus(m, a), a) == m
  {
  }

  /** Every multiple is that of an increasing list. */
  lemma {:induction false} Normalised(qs: seq<nat>) returns (ns: seq<nat>)
    ensures Increasing(ns) && Multiple(ns) == Multiple(qs)
  {
    if qs == [] {
      ns := [];
    } else {
      var init := Normalised(qs[..|qs| - 1]);
      InsertIncreases(init, qs[|qs| - 1]);
      InsertAdds(init, qs[|qs| - 1]);
      ns := Insert(init, qs[|qs| - 1]);
    }
  }

  lemma {:induction false} MultipleBelow(qs: seq<nat>, n: nat)
    requires forall i :: 0 <= i < |qs| ==> qs[i] < n
    ensures forall e :: e in Multiple(qs) ==> e < n + 32
  {
    if qs != [] {
      MultipleBelow(qs[..|qs| - 1], n);
    }
  }

  /** A multiple of `G` other than zero has an exponent of 32 or more. */
  lemma SmallMultiple(qs: seq<nat>)
    requires forall e :: e in Multiple(qs) ==> e < 32
    ensures Multiple(qs) == {}
  {
    var ns := Normalised(qs);
    if ns != [] {
      TopStays(ns);
    }
  }

  lemma TopStays(qs: seq<nat>)
    requires Increasing(qs) && qs != []
    ensures qs[|qs| - 1] + 32 in Multiple(qs)
  {
    var q := qs[|qs| - 1];
    MultipleBelow(qs[..|qs| - 1], q);
    InTimes(G, q, q + 32);
  }

  lemma {:induction false} MultipleConcat(a: seq<nat>, b: seq<nat>)
    ensures Multiple(a + b) == Plus(Multiple(a), Multiple(b))
  {
    hide Plus, Times;
    if b == [] {
      assert a + b == a;
      PlusLaws(Multiple(a), {}, {});
    } else {
      var init, q := b[..|b| - 1], b[|b| - 1];
      MultipleConcat(a, init);
      assert (a + b)[..|a + b| - 1] == a + init;
      PlusLaws(Multiple(a), Multiple(init), Times(G, q));
    }
  }

  lemma SameSum(p: set<nat>, r: set<nat>, s: set<nat>, a: set<nat>, b: set<nat>)
    requires p == Plus(r, a) && p == Plus(s, b)
    ensures Plus(a, b) == Plus(r, s)
  {
  }

  /** There is one remainder with exponents below 32. */
  lemma RemainderUnique(p: set<nat>, r: set<nat>, s: set<nat>)
    requires Congruent(p, r) && Congruent(p, s)
    requires (forall e :: e in r ==> e < 32) && forall e :: e in s ==> e < 32
    ensures r == s
  {
    hide Multiple;
    var a :| p == Plus(r, Multiple(a));
    var b :| p == Plus(s, Multiple(b));
    MultipleConcat(a, b);
    SameSum(p, r, s, Multiple(a), Multiple(b));
    SmallMultiple(a + b);
    NoDifference(r, s);
  }

  lemma NoDifference(r: set<nat>, s: set<nat>)
    requires Plus(r, s) == {}
    ensures r == s
  {
    forall e: nat ensures e in r <==> e in s {
      assert e !in Plus(r, s);
    }
  }

  // ---------------------------------------------------------------- bits as polynomials

  function One(b: bool, e: nat): set<nat> { if b then {e} else {} }

  lemma PolynomialSnoc(bs: seq<bool>, b: bool)
    ensures Polynomial(bs + [b]) == Plus(Times(Polynomial(bs), 1), One(b, 0))
  {
    forall e: nat ensures e in Polynomial(bs + [b]) <==> e in Plus(Times(Polynomial(bs), 1), One(b, 0)) {
      InTimes(Polynomial(bs), 1, e);
      assert e > 0 ==> (Coefficient(bs + [b], e) <==> Coefficient(bs, e - 1));
    }
  }

  lemma PolynomialFirst(b: bool, bs: seq<bool>)
    ensures Polynomial([b] + bs) == Plus(Polynomial(bs), One(b, |bs|))
  {
    forall e: nat ensures e in Polynomial([b] + bs) <==> e in Plus(Polynomial(bs), One(b, |bs|)) {
      assert e < |bs| ==> (Coefficient([b] + bs, e) <==> Coefficient(bs, e));
    }
  }

  lemma PolynomialXor(a: seq<bool>, b: seq<bool>, c: seq<bool>)
    requires |a| == |b| == |c| && forall k :: 0 <= k < |a| ==> c[k] == (a[k] != b[k])
    ensures Polynomial(c) == Plus(Polynomial(a), Polynomial(b))
  {
    forall e: nat ensures e in Polynomial(c) <==> e in Plus(Polynomial(a), Polynomial(b)) {
      assert Coefficient(c, e) <==> (Coefficient(a, e) != Coefficient(b, e));
    }
  }

  lemma {:induction false} BitsXor(x: bv32, y: bv32, n: nat)
    ensures forall k :: 0 <= k < n ==> Bits(Xor(x, y), n)[k] == (Bits(x, n)[k] != Bits(y, n)[k])
    decreases n
  {
    hide Xor, Half, Odd;
    if n > 0 {
      BitsXor(Half(x), Half(y), n - 1);
      XorBits(x, y);
    }
  }

  /** The first bits do not depend on how many are asked for. */
  lemma {:induction false} BitsPrefix(x: bv32, n: nat, m: nat)
    ensures Bits(x, n + m)[..n] == Bits(x, n)
    decreases n
  {
    hide Half, Odd;
    if n > 0 {
      BitsPrefix(Half(x), n - 1, m);
      assert Bits(x, n + m)[..n] == [Odd(x)] + Bits(Half(x), n - 1 + m)[..n - 1];
    }
  }

  lemma EightHalves(x: bv32)
    ensures Half(Half(Half(Half(Half(Half(Half(Half(x)))))))) == DropByte(x)
  {
  }

  lemma BitsStep(x: bv32, n: nat)
    requires n > 0
    ensures Bits(x, n)[0] == Odd(x) && Bits(x, n)[1..] == Bits(Half(x), n - 1)
  {
    hide Half, Odd;
  }

  lemma {:induction false} LaterBits(x: bv32, n: nat, j: nat, y: bv32)
    requires j <= n && y == Halved(x, j)
    ensures Bits(x, n)[j..] == Bits(y, n - j)
    decreases j
  {
    hide Half, Odd;
    if j > 0 {
      BitsStep(x, n);
      LaterBits(Half(x), n - 1, j - 1, y);
      assert Bits(x, n)[j..] == Bits(x, n)[1..][j - 1..];
    }
  }

  function Halved(x: bv32, j: nat): bv32
    decreases j
  {
    if j == 0 then x else Halved(Half(x), j - 1)
  }

  lemma ByteHalved(x: bv32)
    ensures Halved(x, 8) == DropByte(x)
  {
    EightHalves(x);
    hide Half;
    var x2 := Half(Half(x));
    var x4 := Half(Half(x2));
    var x6 := Half(Half(x4));
    assert Halved(x, 8) == Halved(x2, 6) && Halved(x2, 6) == Halved(x4, 4) && Halved(x4, 4) == Halved(x6, 2);
  }

  lemma AllBytesDropped(x: bv32)
    ensures DropByte(DropByte(DropByte(DropByte(x)))) == 0 && !Odd(0)
  {
  }

  /** There is no bit above the highest. */
  lemma NoBit32(x: bv32)
    ensures !Bits(x, 33)[32]
  {
    var x1 := DropByte(x);
    var x2 := DropByte(x1);
    var x3 := DropByte(x2);
    AllBytesDropped(x);
    ByteHalved(x);
    ByteHalved(x1);
    ByteHalved(x2);
    ByteHalved(x3);
    hide Halved, DropByte, Half, Odd, Bits;
    LaterBits(x, 33, 8, x1);
    LaterBits(x1, 25, 8, x2);
    LaterBits(x2, 17, 8, x3);
    LaterBits(x3, 9, 8, 0);
    BitsStep(0, 1);
    var b := Bits(x, 33);
    assert b[32] == b[8..][24];
    assert Bits(x1, 25)[24] == Bits(x1, 25)[8..][16];
    assert Bits(x2, 17)[16] == Bits(x2, 17)[8..][8];
    assert Bits(x3, 9)[8] == Bits(x3, 9)[8..][0];
  }

  /** The low byte, then the rest. */
  lemma BitsByByte(x: bv32, n: nat)
    requires n >= 8
    ensures Bits(x, n) == Bits(x, 8) + Bits(DropByte(x), n - 8)
  {
    ByteHalved(x);
    hide Half, Odd, Halved, DropByte, Bits;
    BitsPrefix(x, 8, n - 8);
    LaterBits(x, n, 8, DropByte(x));
    assert Bits(x, n) == Bits(x, n)[..8] + Bits(x, n)[8..];
  }

  lemma PolyLow()
    ensures Bits(0xEDB8_8320, 8) == [false, false, false, false, false, true, false, false]
    ensures Bits(0xED_B883, 8) == [true, true, false, false, false, false, false, true]
  {
  }

  lemma PolyHigh()
    ensures Bits(0xEDB8, 8) == [false, false, false, true, true, true, false, true]
    ensures Bits(0xED, 8) == [true, false, true, true, false, true, true, true]
  {
  }

  function Coefficients(): (bs: seq<bool>)
    ensures |bs| == 32
  {
    [false, false, false, false, false, true, false, false, true, true, false, false, false, false, false, true,
     false, false, false, true, true, true, false, true, true, false, true, true, false, true, true, true]
  }

  lemma PolyByBytes()
    ensures Bits(POLY, 32) == Bits(0xEDB8_8320, 8) + (Bits(0xED_B883, 8) + (Bits(0xEDB8, 8) + Bits(0xED, 8)))
  {
    assert DropByte(0xEDB8_8320) == 0xED_B883 && DropByte(0xED_B883) == 0xEDB8 && DropByte(0xEDB8) == 0xED;
    hide Bits, DropByte;
    BitsByByte(POLY, 32);
    BitsByByte(0xED_B883, 24);
    BitsByByte(0xEDB8, 16);
  }

  lemma PolyBits()
    ensures Bits(POLY, 32) == Coefficients()
  {
    PolyLow();
    PolyHigh();
    PolyByBytes();
    hide Bits;
  }

  /** The constant of the program is the polynomial of the standard without its highest power. */
  lemma PolynomialOfConstant()
    ensures Register(POLY) == G - {32}
  {
    PolyBits();
    hide Bits;
    forall e: nat ensures e in Polynomial(Coefficients()) <==> e in G - {32} {
      if e < 32 {
        assert Coefficient(Coefficients(), e) == Coefficients()[31 - e];
      }
    }
  }

  // ---------------------------------------------------------------- one bit

  lemma HalfBits(x: bv32)
    ensures Bits(Half(x), 32) == Bits(Half(x), 31) + [false]
  {
    NoBit32(x);
    hide Half, Odd, Bits;
    BitsStep(x, 33);
    BitsPrefix(Half(x), 31, 1);
    var b := Bits(Half(x), 32);
    assert Bits(x, 33)[1..][31] == Bits(x, 33)[32];
    assert b == b[..31] + [b[31]];
  }

  lemma OneTimes(b: bool, e: nat)
    ensures Times(One(b, e), 1) == One(b, e + 1)
  {
    forall i: nat ensures i in Times(One(b, e), 1) <==> i in One(b, e + 1) {
      InTimes(One(b, e), 1, i);
    }
  }

  /** Shifting a register multiplies by x and drops x^32. */
  lemma HalfRegister(x: bv32)
    ensures Register(Half(x)) == Plus(Times(Register(x), 1), One(Odd(x), 32))
  {
    hide Half, Odd, Bits, Polynomial, Times, Plus, One;
    var t := Bits(Half(x), 31);
    BitsStep(x, 32);
    assert Bits(x, 32) == [Odd(x)] + t;
    PolynomialFirst(Odd(x), t);
    HalfBits(x);
    PolynomialSnoc(t, false);
    var p, o, o' := Polynomial(t), One(Odd(x), 31), One(Odd(x), 32);
    TimesPlus(p, o, 1);
    OneTimes(Odd(x), 31);
    assert One(false, 0) == {} by { NothingOne(); }
    PlusLaws(Times(p, 1), {}, {});
    PlusLaws(Times(p, 1), o', o');
    PlusLaws(o', o', o');
  }

  lemma NothingOne()
    ensures One(false, 0) == {}
  {
  }

  lemma XorRegister(x: bv32, y: bv32)
    ensures Register(Xor(x, y)) == Plus(Register(x), Register(y))
  {
    hide Xor, Plus, Polynomial, Bits;
    BitsXor(x, y, 32);
    PolynomialXor(Bits(x, 32), Bits(y, 32), Bits(Xor(x, y), 32));
  }

  function Feed(b: bool): bv32 { if b then 1 else 0 }

  /** One step multiplies by x, adds the message bit at x^32, and takes away `G` if x^32 is then there. */
  lemma StepRegister(crc: bv32, b: bool)
    ensures Register(SerialStep(crc, Feed(b)))
         == Plus(Plus(Times(Register(crc), 1), One(b, 32)), if Odd(crc) != b then G else {})
  {
    assert Odd(Feed(b)) == b;
    hide Half, Odd, Xor, Register, Times, Feed;
    HalfRegister(crc);
    XorRegister(Half(crc), POLY);
    PolynomialOfConstant();
    var t := Times(Register(crc), 1);
    Feedback(t, Odd(crc), b);
  }

  lemma Feedback(t: set<nat>, odd: bool, b: bool)
    ensures odd == b ==> Plus(t, One(odd, 32)) == Plus(Plus(t, One(b, 32)), {})
    ensures odd != b ==> Plus(Plus(t, One(odd, 32)), G - {32}) == Plus(Plus(t, One(b, 32)), G)
  {
  }

  // ---------------------------------------------------------------- a whole message

  /** The register after a list of bits. */
  function SerialAll(crc: bv32, bs: seq<bool>): bv32
    decreases |bs|
  {
    if bs == [] then crc else SerialAll(SerialStep(crc, Feed(bs[0])), bs[1..])
  }

  lemma {:induction false} SerialAllConcat(crc: bv32, a: seq<bool>, b: seq<bool>)
    ensures SerialAll(crc, a + b) == SerialAll(SerialAll(crc, a), b)
    decreases |a|
  {
    hide SerialStep, Feed;
    if a == [] {
      assert a + b == b;
    } else {
      assert (a + b)[1..] == a[1..] + b;
      SerialAllConcat(SerialStep(crc, Feed(a[0])), a[1..], b);
    }
  }

  lemma StepOfBits(crc: bv32, bits: bv32)
    ensures SerialStep(crc, bits) == SerialStep(crc, Feed(Odd(bits)))
  {
    assert Odd(1) && !Odd(0);
    hide Odd, Half, Xor;
  }

  lemma {:induction false} SerialBitsAll(crc: bv32, bits: bv32, n: nat)
    ensures SerialBits(crc, bits, n) == SerialAll(crc, Bits(bits, n))
    decreases n
  {
    hide SerialStep, Feed, Half, Odd;
    if n > 0 {
      StepOfBits(crc, bits);
      BitsStep(bits, n);
      SerialBitsAll(SerialStep(crc, bits), Half(bits), n - 1);
    }
  }

  lemma {:induction false} SerialBytesAll(crc: bv32, msg: seq<bv8>)
    ensures SerialBytes(crc, msg) == SerialAll(crc, MessageBits(msg))
    decreases |msg|
  {
    hide SerialBits, SerialAll, Bits;
    if msg == [] {
      assert SerialAll(crc, []) == crc by { SerialAllNone(crc); }
    } else {
      var init, b := msg[..|msg| - 1], msg[|msg| - 1] as bv32;
      SerialBytesAll(crc, init);
      SerialBitsAll(SerialBytes(crc, init), b, 8);
      SerialAllConcat(crc, MessageBits(init), Bits(b, 8));
    }
  }

  lemma SerialAllNone(crc: bv32)
    ensures SerialAll(crc, []) == crc
  {
  }

  /** The message as the standard divides it: multiplied by x^32, with the start value ahead of it. */
  function Dividend(start: set<nat>, bs: seq<bool>): set<nat> {
    Plus(Times(Polynomial(bs), 32), Times(start, |bs|))
  }

  /** The dividend of what is left after one step. */
  lemma DividendAfter(r: set<nat>, b: bool, bs: seq<bool>, g: set<nat>)
    ensures Dividend(Plus(Plus(Times(r, 1), One(b, 32)), g), bs)
         == Plus(Times(Polynomial(bs), 32), Plus(Plus(Times(r, |bs| + 1), One(b, 32 + |bs|)), Times(g, |bs|)))
  {
    hide Polynomial, Times, One, Plus;
    var n := |bs|;
    TimesPlus(Plus(Times(r, 1), One(b, 32)), g, n);
    TimesPlus(Times(r, 1), One(b, 32), n);
    TimesTimes(r, 1, n);
    OneTimesMany(b, 32, n);
    assert 1 + n == n + 1;
  }

  /** The dividend of one bit more. */
  lemma DividendBefore(r: set<nat>, b: bool, bs: seq<bool>)
    ensures Dividend(r, [b] + bs)
         == Plus(Plus(Times(Polynomial(bs), 32), One(b, 32 + |bs|)), Times(r, |bs| + 1))
  {
    hide Polynomial, Times, One, Plus;
    PolynomialFirst(b, bs);
    TimesPlus(Polynomial(bs), One(b, |bs|), 32);
    OneTimesMany(b, |bs|, 32);
  }

  lemma DividendStep(r: set<nat>, b: bool, bs: seq<bool>, g: set<nat>)
    ensures Dividend(Plus(Plus(Times(r, 1), One(b, 32)), g), bs) == Plus(Dividend(r, [b] + bs), Times(g, |bs|))
  {
    hide Polynomial, Times, One, Plus, Dividend;
    DividendAfter(r, b, bs, g);
    DividendBefore(r, b, bs);
    FourTerms(Times(Polynomial(bs), 32), Times(r, |bs| + 1), One(b, 32 + |bs|), Times(g, |bs|));
  }

  lemma OneTimesMany(b: bool, e: nat, n: nat)
    ensures Times(One(b, e), n) == One(b, e + n)
  {
    forall i: nat ensures i in Times(One(b, e), n) <==> i in One(b, e + n) {
      InTimes(One(b, e), n, i);
    }
  }

  lemma FourTerms(p: set<nat>, x: set<nat>, o: set<nat>, g: set<nat>)
    ensures Plus(p, Plus(Plus(x, o), g)) == Plus(Plus(Plus(p, o), x), g)
  {
  }

  /** Feeding bits to a register leaves a polynomial that differs from the dividend by a multiple of `G`. */
  lemma {:induction false} SerialCongruent(crc: bv32, bs: seq<bool>) returns (qs: seq<nat>)
    ensures Dividend(Register(crc), bs) == Plus(Register(SerialAll(crc, bs)), Multiple(qs))
    decreases |bs|
  {
    hide Register, SerialStep, Feed, One, Times, Plus, Polynomial, Odd;
    if bs == [] {
      qs := [];
      NothingDivided(Register(crc));
    } else {
      var b, rest, fb := bs[0], bs[1..], Odd(crc) != bs[0];
      assert bs == [b] + rest;
      var g, next := if fb then G else {}, SerialStep(crc, Feed(b));
      var more := SerialCongruent(next, rest);
      StepRegister(crc, b);
      DividendStep(Register(crc), b, rest, g);
      var d, r, m := Dividend(Register(crc), bs), Register(SerialAll(crc, bs)), Multiple(more);
      assert Plus(d, Times(g, |rest|)) == Plus(r, m);
      hide Multiple, Dividend, SerialAll;
      if fb {
        qs := more + [|rest|];
        MultipleSnoc(more, |rest|);
      } else {
        qs := more;
        assert Times({}, |rest|) == {} by { NothingTimes(|rest|); }
      }
      MoveTerm(d, Times(g, |rest|), r, m);
    }
  }

  lemma NothingTimes(n: nat)
    ensures Times({}, n) == {}
  {
  }

  lemma NothingDivided(r: set<nat>)
    ensures Dividend(r, []) == Plus(r, Multiple([]))
  {
    assert Polynomial([]) == {};
    TimesTimes(r, 0, 0);
    forall e: nat ensures e in Times(r, 0) <==> e in r { InTimes(r, 0, e); }
    assert Times(r, 0) == r;
  }

  lemma MoveTerm(d: set<nat>, t: set<nat>, r: set<nat>, m: set<nat>)
    requires Plus(d, t) == Plus(r, m)
    ensures d == Plus(r, Plus(m, t)) && (t == {} ==> d == Plus(r, m))
  {
    PlusLaws(d, t, t);
    PlusLaws(t, t, t);
    PlusLaws(r, m, t);
    PlusLaws(d, {}, {});
    hide Plus;
  }

  lemma ComplementRegister(x: bv32)
    ensures Register(x ^ 0xFFFF_FFFF) == Ones() - Register(x)
  {
    AllOnes();
    XorRegister(x, 0xFFFF_FFFF);
    RegisterBelow(x);
    assert Xor(x, 0xFFFF_FFFF) == x ^ 0xFFFF_FFFF;
  }

  lemma RegisterBelow(x: bv32)
    ensures forall e :: e in Register(x) ==> e < 32
  {
  }

  lemma AllOnes()
    ensures Register(0xFFFF_FFFF) == Ones()
  {
    AllOneBits();
    hide Bits;
    assert forall e: nat :: e < 32 ==> Coefficient(Bits(0xFFFF_FFFF, 32), e);
  }

  lemma AllOneBits()
    ensures forall k :: 0 <= k < 32 ==> Bits(0xFFFF_FFFF, 32)[k]
  {
    OneBytes();
    assert DropByte(0xFFFF_FFFF) == 0xFF_FFFF && DropByte(0xFF_FFFF) == 0xFFFF && DropByte(0xFFFF) == 0xFF;
    hide Bits, DropByte;
    BitsByByte(0xFFFF_FFFF, 32);
    BitsByByte(0xFF_FFFF, 24);
    BitsByByte(0xFFFF, 16);
  }

  lemma OneBytes()
    ensures Bits(0xFFFF_FFFF, 8) == Bits(0xFF_FFFF, 8) == [true, true, true, true, true, true, true, true]
    ensures Bits(0xFFFF, 8) == Bits(0xFF, 8) == [true, true, true, true, true, true, true, true]
  {
  }

  /**
   Section 8 of RFC 1952 and ISO 3309: take the bits of the message, each byte from its lowest bit, as a polynomial; multiply
   it by x^32, complement its first 32 coefficients, divide by `G`, and complement the remainder. `Ones() - ...` is the
   complement, and a register only holds exponents below 32, so what is left is the remainder.
   */
  lemma ReferenceIsRemainder(msg: seq<bv8>)
    ensures Congruent(
              Plus(Times(Polynomial(MessageBits(msg)), 32), Times(Ones(), 8 * |msg|)),
              Ones() - Register(Reference(msg)))
    ensures forall e :: e in Register(Reference(msg)) ==> e < 32
  {
    hide SerialBytes, Register, Times, Plus, Polynomial, Multiple, SerialAll, MessageBits, Ones;
    var crc := SerialBytes(0xFFFF_FFFF, msg);
    SerialBytesAll(0xFFFF_FFFF, msg);
    AllOnes();
    var qs := SerialCongruent(0xFFFF_FFFF, MessageBits(msg));
    ComplementRegister(Reference(msg));
    TwiceComplemented(crc);
    RegisterBelow(Reference(msg));
  }

  lemma TwiceComplemented(x: bv32)
    ensures x ^ 0xFFFF_FFFF ^ 0xFFFF_FFFF == x
  {
  }

  // ---------------------------------------------------------------- the known answer

  lemma Byte49()
    ensures SerialBits(0xFFFF_FFFF, 49, 8) == 0x7C23_1048
  {
  }

  lemma Byte50()
    ensures SerialBits(0x7C23_1048, 50, 8) == 0xB0AC_BB32
  {
  }

  lemma Byte51()
    ensures SerialBits(0xB0AC_BB32, 51, 8) == 0x77B7_9C2D
  {
  }

  lemma Byte52()
    ensures SerialBits(0x77B7_9C2D, 52, 8) == 0x641C_1F5C
  {
  }

  lemma Byte53()
    ensures SerialBits(0x641C_1F5C, 53, 8) == 0x340A_C5E3
  {
  }

  lemma Byte54()
    ensures SerialBits(0x340A_C5E3, 54, 8) == 0xF68D_2C9E
  {
  }

  lemma Byte55()
    ensures SerialBits(0xF68D_2C9E, 55, 8) == 0xAFFC_9660
  {
  }

  lemma Byte56()
    ensures SerialBits(0xAFFC_9660, 56, 8) == 0x651F_2550
  {
  }

  lemma Byte57()
    ensures SerialBits(0x651F_2550, 57, 8) == 0x340B_C6D9
  {
  }

  /** The known answer of the test scripts: the CRC-32 of "123456789". */
  lemma KnownAnswer(msg: seq<bv8>)
    requires |msg| == 9 && msg[0] == 49 && msg[1] == 50 && msg[2] == 51 && msg[3] == 52 && msg[4] == 53
    requires msg[5] == 54 && msg[6] == 55 && msg[7] == 56 && msg[8] == 57
    ensures Reference(msg) == 0xCBF4_3926 && LittleEndian(Reference(msg)) == [0x26, 0x39, 0xF4, 0xCB]
  {
    SerialStart(0xFFFF_FFFF, msg);
    hide SerialBits, SerialBytes;
    Byte49();
    SerialNext(0xFFFF_FFFF, msg, 0);
    Byte50();
    SerialNext(0xFFFF_FFFF, msg, 1);
    Byte51();
    SerialNext(0xFFFF_FFFF, msg, 2);
    Byte52();
    SerialNext(0xFFFF_FFFF, msg, 3);
    Byte53();
    SerialNext(0xFFFF_FFFF, msg, 4);
    Byte54();
    SerialNext(0xFFFF_FFFF, msg, 5);
    Byte55();
    SerialNext(0xFFFF_FFFF, msg, 6);
    Byte56();
    SerialNext(0xFFFF_FFFF, msg, 7);
    Byte57();
    SerialNext(0xFFFF_FFFF, msg, 8);
    assert msg[..9] == msg;
  }
}
