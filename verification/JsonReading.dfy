/** The parser on the text of a tree: it reads the value the tree stands for, or refuses it for depth or for a number. */
module JsonReading {
  import opened Common
  import opened Numerals
  import opened JsonValue
  import opened JsonPrint
  import opened JsonGrammar
  import opened JsonSyntax
  import Utf8

  // ---------------------------------------------------------------- text inside a buffer

  function End(i: nat, t: string): (j: nat)
    ensures j >= i
  {
    i + |Utf8.Encode(t)|
  }

  /** The bytes of `t` are in the buffer at `i`. */
  ghost predicate Spells(b: seq<byte>, i: nat, t: string) {
    End(i, t) <= |b| && b[i..End(i, t)] == Utf8.Encode(t)
  }

  lemma SpellsConcat(b: seq<byte>, i: nat, t: string, u: string)
    requires Spells(b, i, t + u)
    ensures Spells(b, i, t) && Spells(b, End(i, t), u)
    ensures End(End(i, t), u) == End(i, t + u)
  {
    hide Utf8.Encode;
    Utf8.EncodeConcat(t, u);
    var whole := b[i..End(i, t + u)];
    assert whole[..|Utf8.Encode(t)|] == b[i..End(i, t)];
    assert whole[|Utf8.Encode(t)|..] == b[End(i, t)..End(i, t + u)];
  }

  lemma SpellsChar(b: seq<byte>, i: nat, c: char)
    requires Spells(b, i, [c])
    ensures i < |b| && b[i..End(i, [c])] == Utf8.EncodeChar(c)
    ensures c as int < 0x80 ==> Sees(b, i, c) && End(i, [c]) == i + 1
  {
    hide Utf8.EncodeChar, Utf8.Encode;
    Utf8.EncodeOne(c);
    if c as int < 0x80 {
      assert b[i] == b[i..i + 1][0];
    }
  }

  /** An ASCII character, then the rest. */
  lemma SpellsHead(b: seq<byte>, i: nat, c: char, u: string)
    requires Spells(b, i, [c] + u) && c as int < 0x80
    ensures Sees(b, i, c) && Spells(b, i + 1, u) && End(i + 1, u) == End(i, [c] + u)
  {
    hide Utf8.EncodeChar, Utf8.Encode;
    SpellsConcat(b, i, [c], u);
    SpellsChar(b, i, c);
  }

  predicate Ascii(t: string) {
    forall c :: c in t ==> c as int < 0x80
  }

  lemma {:induction false} SpellsAscii(b: seq<byte>, i: nat, t: string)
    requires Spells(b, i, t) && Ascii(t)
    ensures End(i, t) == i + |t|
    ensures forall k :: 0 <= k < |t| ==> b[i + k] == t[k] as int
    decreases |t|
  {
    hide Utf8.EncodeChar, Utf8.Encode;
    if t == "" {
      Utf8.EncodeConcat(t, t);
      assert t + t == t;
    } else {
      assert t == [t[0]] + t[1..];
      assert t[0] in t && forall c :: c in t[1..] ==> c in t;
      SpellsHead(b, i, t[0], t[1..]);
      SpellsAscii(b, i + 1, t[1..]);
      forall k | 0 <= k < |t| ensures b[i + k] == t[k] as int {
        if k > 0 {
          assert b[i + 1 + (k - 1)] == t[1..][k - 1] as int;
        }
      }
    }
  }

  lemma SpellsJoin(b: seq<byte>, i: nat, t: string, u: string)
    requires Spells(b, i, t) && Spells(b, End(i, t), u)
    ensures Spells(b, i, t + u) && End(i, t + u) == End(End(i, t), u)
  {
    hide Utf8.Encode;
    Utf8.EncodeConcat(t, u);
    var m := End(i, t);
    assert b[i..m] + b[m..End(m, u)] == b[i..End(m, u)];
  }

  /** An ASCII character and what follows it. */
  lemma SpellsCons(b: seq<byte>, i: nat, c: char, u: string)
    requires Sees(b, i, c) && c as int < 0x80 && Spells(b, i + 1, u)
    ensures Spells(b, i, [c] + u) && End(i, [c] + u) == End(i + 1, u)
  {
    hide Utf8.Encode;
    Utf8.EncodeOne(c);
    assert b[i..i + 1] == [c as int];
    SpellsJoin(b, i, [c], u);
  }

  lemma SpellsNothing(b: seq<byte>, i: nat)
    requires i <= |b|
    ensures Spells(b, i, "") && End(i, "") == i
  {
  }

  /** ASCII text is spelled byte by byte. */
  lemma {:induction false} AsciiSpells(b: seq<byte>, i: nat, t: string)
    requires i + |t| <= |b| && forall k :: i <= k < i + |t| ==> b[k] < 0x80 && b[k] == t[k - i] as int
    ensures Spells(b, i, t) && End(i, t) == i + |t|
    decreases |t|
  {
    hide Utf8.Encode;
    if t == "" {
      SpellsNothing(b, i);
    } else {
      AsciiSpells(b, i + 1, t[1..]);
      SpellsCons(b, i, t[0], t[1..]);
      assert [t[0]] + t[1..] == t;
    }
  }

  lemma BlankIsAscii(t: string)
    requires Blank(t)
    ensures Ascii(t)
  {
  }

  /** White space before something else is skipped. */
  lemma SkipsBlank(b: seq<byte>, i: nat, t: string)
    requires Spells(b, i, t) && Blank(t)
    requires End(i, t) < |b| ==> !IsSpace(b[End(i, t)])
    ensures SkipSpace(b, i) == End(i, t)
  {
    hide Utf8.Encode, SkipSpace;
    BlankIsAscii(t);
    SpellsAscii(b, i, t);
    var j := End(i, t);
    forall k | i <= k < j ensures IsSpace(b[k]) {
      assert b[i + (k - i)] == t[k - i] as int && t[k - i] in t;
    }
    var r := SkipSpace(b, i);
    assert !(r < j) && !(r > j);
  }

  /** Space is not skipped where there is none. */
  lemma SkipsNothing(b: seq<byte>, i: nat)
    requires i <= |b| && (i < |b| ==> !IsSpace(b[i]))
    ensures SkipSpace(b, i) == i
  {
  }

  // ---------------------------------------------------------------- numbers

  /** What can follow a value. */
  predicate Stops(b: seq<byte>, i: nat) {
    i == |b| || (i < |b| && (IsSpace(b[i]) || Sees(b, i, ',') || Sees(b, i, ']') || Sees(b, i, '}')))
  }

  lemma DigitsEnd(b: seq<byte>, i: nat, j: nat)
    requires i <= j <= |b| && forall k :: i <= k < j ==> IsDigit(b[k])
    requires j < |b| ==> !IsDigit(b[j])
    ensures SkipDigits(b, i) == j
  {
    hide SkipDigits;
    var r := SkipDigits(b, i);
    assert !(r < j) && !(r > j);
  }

  lemma SpellsDigits(b: seq<byte>, i: nat, ds: string)
    requires Spells(b, i, ds) && AllDigits(ds)
    ensures End(i, ds) == i + |ds|
    ensures forall k :: i <= k < i + |ds| ==> IsDigit(b[k]) && b[k] == ds[k - i] as int
  {
    hide Utf8.Encode;
    SpellsAscii(b, i, ds);
    forall k | i <= k < i + |ds| ensures IsDigit(b[k]) && b[k] == ds[k - i] as int {
      assert b[i + (k - i)] == ds[k - i] as int;
    }
  }

  lemma ReadsDigits(b: seq<byte>, i: nat, ds: string)
    requires Spells(b, i, ds) && AllDigits(ds)
    requires End(i, ds) < |b| ==> !IsDigit(b[End(i, ds)])
    ensures SkipDigits(b, i) == End(i, ds)
  {
    hide Utf8.Encode;
    SpellsDigits(b, i, ds);
    DigitsEnd(b, i, End(i, ds));
  }

  /** Where the parts of a numeral lie. */
  lemma NumeralParts(b: seq<byte>, i: nat, n: Numeral)
    requires Spells(b, i, NumeralText(n))
    ensures var d := End(i, SignText(n)); var f := End(d, n.digits); var e := End(f, FractionText(n));
            && Spells(b, i, SignText(n)) && Spells(b, d, n.digits) && Spells(b, f, FractionText(n)) && Spells(b, e, ExponentText(n))
            && End(e, ExponentText(n)) == End(i, NumeralText(n))
  {
    hide Utf8.Encode, SignText, FractionText, ExponentText;
    SpellsConcat(b, i, SignText(n), n.digits + (FractionText(n) + ExponentText(n)));
    var d := End(i, SignText(n));
    SpellsConcat(b, d, n.digits, FractionText(n) + ExponentText(n));
    SpellsConcat(b, End(d, n.digits), FractionText(n), ExponentText(n));
  }

  /** The sign of an exponent, if there is one, is stepped over. */
  lemma ReadsSign(b: seq<byte>, i: nat, sign: string, ds: string)
    requires sign == "" || sign == "+" || sign == "-"
    requires Spells(b, i, sign) && Spells(b, End(i, sign), ds) && AllDigits(ds)
    requires var e := End(End(i, sign), ds); e < |b| ==> b[e] != '+' as int && b[e] != '-' as int
    ensures End(i, sign) == if Sees(b, i, '+') || Sees(b, i, '-') then i + 1 else i
  {
    hide Utf8.Encode;
    if sign == "" {
      SpellsNothing(b, i);
      SpellsDigits(b, i, ds);
    } else {
      assert sign == [sign[0]];
      SpellsChar(b, i, sign[0]);
    }
  }

  lemma ReadsExponent(b: seq<byte>, i: nat, n: Numeral)
    requires LegalNumeral(n, false) && Spells(b, i, ExponentText(n)) && Stops(b, End(i, ExponentText(n)))
    ensures ExponentEnd(b, i) == End(i, ExponentText(n))
    ensures n.exponent.None? <==> End(i, ExponentText(n)) == i
    ensures i < |b| ==> !IsDigit(b[i]) && b[i] != '.' as int
  {
    hide Utf8.Encode, SkipDigits, AllDigits;
    match n.exponent
    case None =>
      SpellsNothing(b, i);
    case Some(e) =>
      SpellsHead(b, i, e.e, e.sign + e.digits);
      SpellsConcat(b, i + 1, e.sign, e.digits);
      hide Spells, End;
      ReadsSign(b, i + 1, e.sign, e.digits);
      ReadsDigits(b, End(i + 1, e.sign), e.digits);
  }

  lemma ReadsFraction(b: seq<byte>, i: nat, n: Numeral)
    requires LegalNumeral(n, false) && Spells(b, i, FractionText(n))
    requires var e := End(i, FractionText(n)); e < |b| ==> !IsDigit(b[e]) && b[e] != '.' as int
    ensures FractionEnd(b, i) == End(i, FractionText(n))
    ensures n.fraction.None? <==> End(i, FractionText(n)) == i
    ensures i < |b| ==> !IsDigit(b[i])
  {
    hide Utf8.Encode, SkipDigits;
    match n.fraction
    case None =>
      SpellsNothing(b, i);
    case Some(ds) =>
      assert FractionText(n) == ['.'] + ds;
      SpellsHead(b, i, '.', ds);
      ReadsDigits(b, i + 1, ds);
  }

  lemma ReadsSignAndDigits(b: seq<byte>, i: nat, n: Numeral)
    requires LegalNumeral(n, false) && Spells(b, i, SignText(n)) && Spells(b, End(i, SignText(n)), n.digits)
    requires var f := End(End(i, SignText(n)), n.digits); f < |b| ==> !IsDigit(b[f])
    ensures IntegerEnd(b, i) == End(End(i, SignText(n)), n.digits)
    ensures i < |b| && (Sees(b, i, '-') <==> n.neg) && (n.neg || IsDigit(b[i]))
    ensures End(i, SignText(n)) == if n.neg then i + 1 else i
  {
    hide Utf8.Encode, SkipDigits;
    if n.neg {
      SpellsChar(b, i, '-');
    } else {
      SpellsNothing(b, i);
    }
    var d := End(i, SignText(n));
    SpellsDigits(b, d, n.digits);
    ReadsDigits(b, d, n.digits);
  }

  /** The scanner stops exactly at the end of a numeral, and sees whether it is an integer. */
  lemma ScansNumeral(b: seq<byte>, i: nat, n: Numeral)
    requires LegalNumeral(n, false) && Spells(b, i, NumeralText(n)) && Stops(b, End(i, NumeralText(n)))
    ensures NumberEnd(b, i) == End(i, NumeralText(n))
    ensures NumberEnd(b, i) > IntegerEnd(b, i) <==> !IsInteger(n)
    ensures i < |b| && (Sees(b, i, '-') <==> n.neg) && (n.neg || IsDigit(b[i]))
  {
    hide Utf8.Encode, IntegerEnd, FractionEnd, ExponentEnd, FractionText, ExponentText, SignText;
    NumeralParts(b, i, n);
    var d := End(i, SignText(n));
    var f := End(d, n.digits);
    var e := End(f, FractionText(n));
    ReadsExponent(b, e, n);
    ReadsFraction(b, f, n);
    ReadsSignAndDigits(b, i, n);
  }

  /** What is between the ends of a numeral decodes to its text. */
  lemma NumeralDecodes(b: seq<byte>, i: nat, t: string)
    requires Spells(b, i, t)
    ensures Utf8.Decode(b[i..End(i, t)]) == Some(t)
  {
    hide Utf8.Encode, Utf8.Decode;
    Utf8.DecodeEncode(t);
  }

  /** A numeral has the value its text is read as. */
  lemma NumeralLexeme(lib: FloatLib, n: Numeral)
    requires LegalNumeral(n, false)
    ensures LexemeValue(lib, NumeralText(n), !IsInteger(n)) == NumeralValue(lib, n)
  {
    hide Magnitude;
    if IsInteger(n) {
      var t := NumeralText(n);
      assert n.digits + ("" + "") == n.digits;
      if n.neg {
        assert t == ['-'] + n.digits && t[1..] == n.digits;
      } else {
        assert t == n.digits;
      }
    }
  }

  lemma ReadsNumeral(lib: FloatLib, b: seq<byte>, i: nat, n: Numeral)
    requires LegalNumeral(n, false) && Spells(b, i, NumeralText(n)) && Stops(b, End(i, NumeralText(n)))
    ensures NumberAt(lib, b, i)
         == match NumeralValue(lib, n)
            case Some(v) => Ok(v, End(i, NumeralText(n)))
            case None => Fail(End(i, NumeralText(n)), BadNumber)
    ensures i < |b| && (b[i] == '-' as int || IsDigit(b[i]))
  {
    hide Utf8.Encode, Utf8.Decode, IntegerEnd, NumberEnd, LexemeValue, NumeralValue, LegalNumeral, NumeralText, Spells, End;
    ScansNumeral(b, i, n);
    NumeralDecodes(b, i, NumeralText(n));
    NumeralLexeme(lib, n);
  }

  // ---------------------------------------------------------------- strings

  /** Bytes of multi-byte characters are copied. */
  lemma {:induction false} CopiesRaw(b: seq<byte>, i: nat, j: nat, out: seq<byte>)
    requires i <= j <= |b| && forall k :: i <= k < j ==> b[k] >= 0x80
    ensures StringBody(b, i, out) == StringBody(b, j, out + b[i..j])
    decreases j - i
  {
    hide EscapeSequence, Utf8.Decode;
    if i == j {
      assert out + b[i..j] == out;
    } else {
      CopiesRaw(b, i + 1, j, out + [b[i]]);
      assert out + [b[i]] + b[i + 1..j] == out + b[i..j];
    }
  }

  lemma {:induction false} AsciiIsUtf8(bs: seq<byte>)
    requires forall k :: 0 <= k < |bs| ==> bs[k] < 0x80
    ensures Utf8.Valid(bs)
    decreases |bs|
  {
    if bs != [] {
      AsciiIsUtf8(bs[1..]);
    }
  }

  lemma HexValueOfChar(x: char, d: nat)
    requires HexChar(x, d)
    ensures x as int < 0x80 && HexValue(x as int) == Some(d) && x != '+'
  {
  }

  /** A number written in three digits, most significant first. */
  lemma HexNumber3(bs: seq<byte>, a: nat, b: nat, c: nat)
    requires |bs| == 3 && HexValue(bs[0]) == Some(a) && HexValue(bs[1]) == Some(b) && HexValue(bs[2]) == Some(c)
    ensures HexNumber(bs) == Some(a * 256 + b * 16 + c)
  {
    hide HexValue;
    assert bs[..2][..1][..0] == [] && bs[..2][..1][0] == bs[0] && bs[..2][1] == bs[1];
    assert HexNumber([]) == Some(0);
    assert HexNumber(bs[..2][..1]) == Some(a);
    assert HexNumber(bs[..2]) == Some(a * 16 + b);
  }

  lemma HexNumber4(bs: seq<byte>, a: nat, b: nat, c: nat, d: nat)
    requires |bs| == 4 && HexValue(bs[0]) == Some(a) && HexValue(bs[1]) == Some(b)
    requires HexValue(bs[2]) == Some(c) && HexValue(bs[3]) == Some(d)
    ensures HexNumber(bs) == Some(a * 4096 + b * 256 + c * 16 + d)
  {
    hide HexValue;
    HexNumber3(bs[..3], a, b, c);
  }

  lemma HexDigits(n: nat)
    ensures n == n / 256 * 256 + n / 16 % 16 * 16 + n % 16
  {
    var q := n / 16;
    assert q / 16 == n / 256;
    assert n == q * 16 + n % 16 && q == q / 16 * 16 + q % 16;
  }

  /** A hexadecimal form is ASCII and read as its number. */
  lemma ReadsHex(hex: seq<byte>, t: string, n: nat)
    requires HexForm(t, n, false) && |hex| == 4 && forall k :: 0 <= k < 4 ==> hex[k] == t[k] as int
    ensures HexCode(hex) == Some(n) && forall k :: 0 <= k < 4 ==> hex[k] < 0x80
  {
    hide HexChar, HexValue, HexNumber;
    var m := if t[0] == '+' then n else n % 4096;
    HexDigits(m);
    if t[0] != '+' {
      HexValueOfChar(t[0], n / 4096);
    } else if HexChar(t[0], n / 4096) {
      HexValueOfChar(t[0], n / 4096);
    }
    assert t[1..][0] == t[1] && t[1..][1] == t[2] && t[1..][2] == t[3];
    HexValueOfChar(t[1], m / 256);
    HexValueOfChar(t[2], m / 16 % 16);
    HexValueOfChar(t[3], m % 16);
    HexNumber3(hex[1..], m / 256, m / 16 % 16, m % 16);
    if t[0] != '+' {
      HexNumber4(hex, n / 4096, m / 256, m / 16 % 16, m % 16);
    }
  }

  /** Surrogate pairs and the code points U+10000 to U+10FFFF correspond one to one. */
  lemma SurrogateBijection(c: nat, hi: nat, lo: nat)
    requires 0x1_0000 <= c < 0x11_0000 && 0xD800 <= hi <= 0xDBFF && 0xDC00 <= lo <= 0xDFFF
    ensures 0xD800 <= HighHalf(c) <= 0xDBFF && 0xDC00 <= LowHalf(c) <= 0xDFFF
    ensures Combine(HighHalf(c), LowHalf(c)) == c
    ensures 0x1_0000 <= Combine(hi, lo) < 0x11_0000
    ensures HighHalf(Combine(hi, lo)) == hi && LowHalf(Combine(hi, lo)) == lo
    ensures PairValue(hi, lo) as int == Combine(hi, lo)
  {
  }

  /** The four hexadecimal characters of an escape, in the buffer. */
  lemma HexInBuffer(b: seq<byte>, i: nat, t: string, k: nat, n: nat)
    requires Spells(b, i, t) && Ascii(t) && k + 4 <= |t| && HexForm(t[k..k + 4], n, false)
    ensures i + k + 4 <= |b| && HexCode(b[i + k..i + k + 4]) == Some(n) && Utf8.Valid(b[i + k..i + k + 4])
  {
    hide Utf8.Encode, HexForm, HexCode;
    SpellsAscii(b, i, t);
    var hex := b[i + k..i + k + 4];
    forall j | 0 <= j < 4 ensures hex[j] == t[k..k + 4][j] as int {
      assert b[i + (k + j)] == t[k + j] as int;
    }
    ReadsHex(hex, t[k..k + 4], n);
    AsciiIsUtf8(hex);
  }

  lemma SpellingAscii(t: string, n: nat)
    requires |t| > 1 && Spelling(t, n, false)
    ensures Ascii(t)
  {
    hide HexForm;
    if |t| == 6 {
      HexAscii(t[2..], n);
      assert forall k :: 2 <= k < 6 ==> t[k] == t[2..][k - 2];
    }
  }

  lemma HexAscii(t: string, n: nat)
    requires HexForm(t, n, false)
    ensures |t| == 4 && forall k :: 0 <= k < 4 ==> t[k] as int < 0x80
  {
    assert t[1..][0] == t[1] && t[1..][1] == t[2] && t[1..][2] == t[3];
  }

  /** A numbered escape, in the buffer. */
  lemma NumberedInBuffer(b: seq<byte>, i: nat, x: Spelled)
    requires |x.text| == 6 && Spelling(x.text, x.code, false) && Spells(b, i, x.text)
    ensures Sees(b, i, '\\') && Sees(b, i + 1, 'u') && End(i, x.text) == i + 6 <= |b|
    ensures HexCode(b[i + 2..i + 6]) == Some(x.code) && Utf8.Valid(b[i + 2..i + 6])
  {
    hide Utf8.Encode, Utf8.Valid, HexCode, HexForm;
    var t := x.text;
    SpellingAscii(t, x.code);
    SpellsAscii(b, i, t);
    assert b[i + 0] == t[0] as int && b[i + 1] == t[1] as int;
    assert t[2..2 + 4] == t[2..];
    HexInBuffer(b, i, t, 2, x.code);
  }

  lemma ReadsShortEscape(b: seq<byte>, i: nat, t: string, n: nat)
    requires |t| == 2 && t[0] == '\\' && ShortForm(t[1], n) && Spells(b, i, t)
    ensures Sees(b, i, '\\') && End(i, t) == i + 2 <= |b| && !Sees(b, i + 1, 'u')
    ensures EscapeSequence(b, i + 1) == Ok(Utf8.EncodeChar(n as char), i + 2)
  {
    hide Utf8.Encode, UnicodeEscape;
    SpellsAscii(b, i, t);
    assert b[i + 0] == t[0] as int && b[i + 1] == t[1] as int;
  }

  /** However a character is written, it contributes exactly its bytes. */
  lemma ReadsSpelled(b: seq<byte>, i: nat, x: Spelled, out: seq<byte>)
    requires Spelling(x.text, x.code, false) && Scalar(x.code) && Spells(b, i, x.text)
    ensures StringBody(b, i, out) == StringBody(b, End(i, x.text), out + Utf8.EncodeChar(x.code as char))
  {
    hide Utf8.Encode, Utf8.Decode, Utf8.Valid, HexForm, ShortForm, HexCode, Utf8.EncodeChar, Spells, End;
    var t := x.text;
    if |t| == 1 {
      assert t == [x.code as char];
      ReadsPlain(b, i, x.code as char, out);
    } else if |t| == 2 {
      ReadsShortEscape(b, i, t, x.code);
    } else {
      NumberedInBuffer(b, i, x);
    }
  }

  /** Two numbered escapes for the halves of a supplementary character are read together. */
  lemma PairEscape(b: seq<byte>, i: nat, hi: nat, lo: nat)
    requires High(hi) && Low(lo) && i + 12 <= |b| && Sees(b, i + 1, 'u') && Sees(b, i + 6, '\\') && Sees(b, i + 7, 'u')
    requires HexCode(b[i + 2..i + 6]) == Some(hi) && Utf8.Valid(b[i + 2..i + 6])
    requires HexCode(b[i + 8..i + 12]) == Some(lo) && Utf8.Valid(b[i + 8..i + 12])
    ensures EscapeSequence(b, i + 1) == Ok(Utf8.EncodeChar(PairValue(hi, lo)), i + 12)
  {
    hide Utf8.Valid, HexCode, Utf8.EncodeChar, Combine, HighHalf, LowHalf, PairValue;
    SurrogateBijection(0x1_0000, hi, lo);
    assert LowSurrogate(b, i + 6, hi) == Ok(Utf8.EncodeChar(PairValue(hi, lo)), i + 12);
    hide LowSurrogate;
    assert UnicodeEscape(b, i + 2) == LowSurrogate(b, i + 6, hi);
  }

  lemma ReadsPair(b: seq<byte>, i: nat, x: Spelled, y: Spelled, out: seq<byte>)
    requires Spelling(x.text, x.code, false) && Spelling(y.text, y.code, false) && High(x.code) && Low(y.code)
    requires Spells(b, i, x.text) && Spells(b, End(i, x.text), y.text)
    ensures StringBody(b, i, out)
         == StringBody(b, End(End(i, x.text), y.text), out + Utf8.EncodeChar(PairValue(x.code, y.code)))
  {
    hide Utf8.Encode, Utf8.Decode, Utf8.Valid, HexCode, Utf8.EncodeChar, Spells, End, EscapeSequence, Spelling, PairValue;
    SurrogateIsNumbered(x);
    SurrogateIsNumbered(y);
    NumberedInBuffer(b, i, x);
    NumberedInBuffer(b, i + 6, y);
    PairEscape(b, i, x.code, y.code);
  }

  /** Only a numbered escape can name a surrogate. */
  lemma SurrogateIsNumbered(x: Spelled)
    requires Spelling(x.text, x.code, false) && !Scalar(x.code)
    ensures |x.text| == 6 && x.code < 0x1_0000
  {
  }

  lemma ReadsPlain(b: seq<byte>, i: nat, c: char, out: seq<byte>)
    requires c as int >= 0x20 && c != '\"' && c != '\\' && Spells(b, i, [c])
    ensures StringBody(b, i, out) == StringBody(b, End(i, [c]), out + Utf8.EncodeChar(c))
  {
    hide Utf8.Encode, EscapeSequence, Utf8.Decode, Utf8.EncodeChar;
    SpellsChar(b, i, c);
    if c as int >= 0x80 {
      var j := End(i, [c]);
      assert b[i..j] == Utf8.EncodeChar(c);
      forall k | i <= k < j ensures b[k] >= 0x80 {
        assert b[k] == b[i..j][k - i];
      }
      CopiesRaw(b, i, j, out);
    }
  }

  /** The error an unpaired surrogate escape causes, if the string has one: that of the first. */
  function CharsFault(xs: seq<Spelled>): Option<ErrorKind>
    decreases |xs|
  {
    if xs == [] then None
    else if Pair(xs) then CharsFault(xs[2..])
    else if Scalar(xs[0].code) then CharsFault(xs[1..])
    else if High(xs[0].code) then Some(if |xs| > 1 && |xs[1].text| == 6 then BadLowSurrogate else ExpectedLowSurrogate)
    else Some(LoneLowSurrogate)
  }

  /** A high half that no low one follows is refused, whatever does follow. */
  lemma UnpairedHigh(b: seq<byte>, i: nat, xs: seq<Spelled>, out: seq<byte>)
    requires xs != [] && LegalChars(xs, false) && High(xs[0].code) && !Pair(xs)
    requires Spells(b, i, xs[0].text) && Spells(b, End(i, xs[0].text), CharsText(xs[1..]) + "\"")
    ensures StringBody(b, i, out).Err? && Some(StringBody(b, i, out).error.kind) == CharsFault(xs)
  {
    hide Utf8.Encode, Utf8.Decode, Utf8.Valid, HexForm, HexCode, Spells, End, LegalChars;
    assert Spelling(xs[0].text, xs[0].code, false) by { LegalAt(xs, 0); }
    SurrogateIsNumbered(xs[0]);
    NumberedInBuffer(b, i, xs[0]);
    LegalRest(xs);
    var j := i + 6;
    NextChar(b, j, xs[1..]);
    hide Spelling, CharsText;
    assert |xs| > 1 && |xs[1].text| == 6 ==> HexCode(b[j + 2..j + 6]) == Some(xs[1].code);
    assert LowSurrogate(b, j, xs[0].code)
        == Fail(j, if |xs| > 1 && |xs[1].text| == 6 then BadLowSurrogate else ExpectedLowSurrogate);
    assert UnicodeEscape(b, i + 2) == LowSurrogate(b, j, xs[0].code);
    assert EscapeSequence(b, i + 1) == UnicodeEscape(b, i + 2);
  }

  lemma LegalAt(xs: seq<Spelled>, k: nat)
    requires k < |xs| && LegalChars(xs, false)
    ensures Spelling(xs[k].text, xs[k].code, false)
  {
    assert xs[k] in xs;
  }

  lemma LegalRest(xs: seq<Spelled>)
    requires xs != [] && LegalChars(xs, false)
    ensures LegalChars(xs[1..], false)
  {
  }

  /** What the next character of a string looks like: a numbered escape shows as one, and nothing else does. */
  lemma NextChar(b: seq<byte>, j: nat, xs: seq<Spelled>)
    requires LegalChars(xs, false) && Spells(b, j, CharsText(xs) + "\"")
    ensures j < |b|
    ensures xs != [] && |xs[0].text| == 6 ==>
              && Sees(b, j, '\\') && Sees(b, j + 1, 'u') && j + 6 <= |b|
              && HexCode(b[j + 2..j + 6]) == Some(xs[0].code) && Utf8.Valid(b[j + 2..j + 6])
    ensures xs == [] || |xs[0].text| != 6 ==> !(Sees(b, j, '\\') && Sees(b, j + 1, 'u'))
  {
    hide Utf8.Encode, Utf8.EncodeChar, Utf8.Valid, HexForm, HexCode, LegalChars;
    if xs == [] {
      assert CharsText(xs) + "\"" == "\"";
      SpellsChar(b, j, '\"');
    } else {
      LegalAt(xs, 0);
      var x, rest := xs[0], CharsText(xs[1..]) + "\"";
      assert CharsText(xs) + "\"" == x.text + rest;
      SpellsConcat(b, j, x.text, rest);
      if |x.text| == 1 {
        assert x.text == [x.text[0]];
        PlainByte(b, j, x.text[0]);
      } else if |x.text| == 2 {
        ReadsShortEscape(b, j, x.text, x.code);
      } else {
        NumberedInBuffer(b, j, x);
      }
    }
  }

  lemma PlainByte(b: seq<byte>, j: nat, c: char)
    requires Spells(b, j, [c]) && c != '\\'
    ensures j < |b| && !Sees(b, j, '\\')
  {
    hide Utf8.Encode;
    SpellsChar(b, j, c);
    assert b[j] == b[j..End(j, [c])][0];
  }

  lemma LoneLow(b: seq<byte>, i: nat, x: Spelled, out: seq<byte>)
    requires Spelling(x.text, x.code, false) && Low(x.code) && Spells(b, i, x.text)
    ensures StringBody(b, i, out).Err? && StringBody(b, i, out).error.kind == LoneLowSurrogate
  {
    hide Utf8.Encode, Utf8.Decode, Utf8.Valid, HexForm, HexCode, Spells, End;
    SurrogateIsNumbered(x);
    NumberedInBuffer(b, i, x);
    hide Spelling;
    assert UnicodeEscape(b, i + 2) == Fail(i + 6, LoneLowSurrogate);
    assert EscapeSequence(b, i + 1) == UnicodeEscape(b, i + 2);
  }

  /** The value when there is no fault; otherwise an error of that kind. */
  ghost predicate Reads<T>(r: Parsed<T>, fault: Option<ErrorKind>, v: Option<T>, end: nat) {
    match fault
    case None => v.Some? && r == Ok(v.value, end)
    case Some(kind) => r.Err? && r.error.kind == kind
  }

  function Continued(pre: string, s: Option<string>): Option<string> {
    match s
    case Some(t) => Some(pre + t)
    case None => None
  }

  lemma {:induction false} ReadsChars(b: seq<byte>, i: nat, pre: string, xs: seq<Spelled>)
    requires LegalChars(xs, false) && Spells(b, i, CharsText(xs) + "\"")
    ensures Reads(StringBody(b, i, Utf8.Encode(pre)), CharsFault(xs), Continued(pre, CharsValue(xs)), End(i, CharsText(xs) + "\""))
    decreases |xs|, 0
  {
    hide Utf8.Encode, Utf8.Decode, Utf8.EncodeChar, StringBody, Spelling, LegalChars;
    if xs == [] {
      assert CharsText(xs) + "\"" == "\"" && pre + "" == pre;
      SpellsChar(b, i, '\"');
      Utf8.DecodeEncode(pre);
      ClosesString(b, i, Utf8.Encode(pre));
    } else {
      hide Spells, End;
      SplitsFirst(b, i, xs);
      LegalAt(xs, 0);
      LegalCode(xs[0]);
      if Pair(xs) {
        SplitsFirst(b, End(i, xs[0].text), xs[1..]);
        LegalAt(xs, 1);
        assert xs[1..][1..] == xs[2..];
        ReadsPair(b, i, xs[0], xs[1], Utf8.Encode(pre));
        ReadsMore(b, End(End(i, xs[0].text), xs[1].text), pre, PairValue(xs[0].code, xs[1].code), xs[2..]);
      } else if Scalar(xs[0].code) {
        ReadsSpelled(b, i, xs[0], Utf8.Encode(pre));
        ReadsMore(b, End(i, xs[0].text), pre, xs[0].code as char, xs[1..]);
      } else if High(xs[0].code) {
        UnpairedHigh(b, i, xs, Utf8.Encode(pre));
      } else {
        LoneLow(b, i, xs[0], Utf8.Encode(pre));
      }
    }
  }

  /** The rest of a string, with one more character collected. */
  lemma ReadsMore(b: seq<byte>, i: nat, pre: string, c: char, xs: seq<Spelled>)
    requires LegalChars(xs, false) && Spells(b, i, CharsText(xs) + "\"")
    ensures Reads(StringBody(b, i, Utf8.Encode(pre) + Utf8.EncodeChar(c)), CharsFault(xs),
                  Continued(pre, Prepend(c, CharsValue(xs))), End(i, CharsText(xs) + "\""))
    decreases |xs|, 1
  {
    hide Utf8.Encode, Utf8.EncodeChar, StringBody, LegalChars, CharsText, CharsValue, CharsFault, Spells, End;
    Utf8.EncodeConcat(pre, [c]);
    Utf8.EncodeOne(c);
    ReadsChars(b, i, pre + [c], xs);
    if CharsValue(xs).Some? {
      Regroup(pre, [c], CharsValue(xs).value);
    }
  }

  lemma SplitsFirst(b: seq<byte>, i: nat, xs: seq<Spelled>)
    requires xs != [] && LegalChars(xs, false) && Spells(b, i, CharsText(xs) + "\"")
    ensures LegalChars(xs[1..], false)
    ensures Spells(b, i, xs[0].text) && Spells(b, End(i, xs[0].text), CharsText(xs[1..]) + "\"")
    ensures End(End(i, xs[0].text), CharsText(xs[1..]) + "\"") == End(i, CharsText(xs) + "\"")
  {
    hide Utf8.Encode, Spelling, Spells, End;
    Regroup(xs[0].text, CharsText(xs[1..]), "\"");
    SpellsConcat(b, i, xs[0].text, CharsText(xs[1..]) + "\"");
  }

  lemma ClosesString(b: seq<byte>, i: nat, out: seq<byte>)
    requires Sees(b, i, '\"') && Utf8.Decode(out).Some?
    ensures StringBody(b, i, out) == Ok(Utf8.Decode(out).value, i + 1)
  {
    hide Utf8.Decode;
  }

  /** Every spelling of a string is read as that string, and one with an unpaired surrogate escape is refused. */
  lemma ReadsString(b: seq<byte>, i: nat, xs: seq<Spelled>)
    requires LegalChars(xs, false) && Spells(b, i, Quoted(xs))
    ensures Sees(b, i, '\"')
    ensures Reads(StringAt(b, i), CharsFault(xs), CharsValue(xs), End(i, Quoted(xs)))
  {
    hide Utf8.Encode, StringBody, CharsText, CharsValue, CharsFault, LegalChars;
    assert Quoted(xs) == ['\"'] + (CharsText(xs) + "\"");
    SpellsHead(b, i, '\"', CharsText(xs) + "\"");
    assert Utf8.Encode("") == [] by { Utf8.EncodeConcat("", ""); assert "" + "" == ""; }
    ReadsChars(b, i + 1, "", xs);
    if CharsValue(xs).Some? {
      assert "" + CharsValue(xs).value == CharsValue(xs).value;
    }
  }
}
