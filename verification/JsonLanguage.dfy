/** The exact language of the parser: a text is accepted just when it is a text of a legal tree that stands for a value. */
module JsonLanguage {
  import opened Common
  import opened Numerals
  import opened JsonValue
  import opened JsonPrint
  import opened JsonGrammar
  import opened JsonSyntax
  import opened JsonReading
  import opened JsonTrees
  import opened JsonSoundness
  import Utf8

  // ---------------------------------------------------------------- white space and numbers

  function AsciiText(bs: seq<byte>): (t: string)
    requires forall k :: 0 <= k < |bs| ==> bs[k] < 0x80
    ensures |t| == |bs| && forall k :: 0 <= k < |t| ==> t[k] as int == bs[k]
  {
    seq(|bs|, k requires 0 <= k < |bs| => bs[k] as char)
  }

  lemma AsciiIn(b: seq<byte>, i: nat, j: nat) returns (t: string)
    requires i <= j <= |b| && forall k :: i <= k < j ==> b[k] < 0x80
    ensures |t| == j - i && Spells(b, i, t) && End(i, t) == j
    ensures forall k :: 0 <= k < |t| ==> t[k] as int == b[i + k]
  {
    hide Spells, End;
    t := AsciiText(b[i..j]);
    AsciiSpells(b, i, t);
  }

  lemma BlankIn(b: seq<byte>, i: nat) returns (blank: string)
    requires i <= |b|
    ensures Blank(blank) && Spells(b, i, blank) && End(i, blank) == SkipSpace(b, i)
  {
    hide SkipSpace, Spells, End;
    blank := AsciiIn(b, i, SkipSpace(b, i));
    forall c | c in blank ensures c == ' ' || c == '\t' || c == '\n' || c == '\r' {
      var k :| 0 <= k < |blank| && blank[k] == c;
      assert IsSpace(b[i + k]);
    }
  }

  lemma DigitsIn(b: seq<byte>, i: nat) returns (ds: string)
    requires i <= |b|
    ensures AllDigits(ds) && Spells(b, i, ds) && End(i, ds) == SkipDigits(b, i) == i + |ds|
    ensures ds != "" ==> ds[0] as int == b[i]
  {
    hide SkipDigits, Spells, End;
    ds := AsciiIn(b, i, SkipDigits(b, i));
    forall k | 0 <= k < |ds| ensures '0' <= ds[k] <= '9' {
      assert IsDigit(b[i + k]);
    }
  }

  lemma SignIn(b: seq<byte>, i: nat) returns (neg: bool)
    requires i < |b|
    ensures neg <==> Sees(b, i, '-')
    ensures var t := if neg then "-" else ""; Spells(b, i, t) && End(i, t) == if neg then i + 1 else i
  {
    hide Spells, End;
    neg := Sees(b, i, '-');
    var t := AsciiIn(b, i, if neg then i + 1 else i);
    assert t == if neg then "-" else "";
  }

  lemma IntegerIn(b: seq<byte>, i: nat) returns (neg: bool, ds: string)
    requires i < |b| && (b[i] == '-' as int || IsDigit(b[i]))
    ensures LegalNumeral(Numeral(neg, ds, None, None), false)
    ensures var t := if neg then "-" else "";
            Spells(b, i, t) && Spells(b, End(i, t), ds) && End(End(i, t), ds) == IntegerEnd(b, i)
  {
    hide SkipDigits, Spells, End;
    neg := SignIn(b, i);
    var j := if neg then i + 1 else i;
    if Sees(b, j, '0') {
      ds := AsciiIn(b, j, j + 1);
      assert ds == "0";
    } else {
      ds := DigitsIn(b, j);
      if !neg {
        FirstDigit(b, j);
      }
    }
  }

  lemma FirstDigit(b: seq<byte>, i: nat)
    requires i < |b|
    ensures IsDigit(b[i]) <==> SkipDigits(b, i) > i
  {
  }

  lemma FractionIn(b: seq<byte>, i: nat) returns (fraction: Option<string>)
    requires i <= |b|
    ensures fraction.Some? ==> AllDigits(fraction.value)
    ensures var t := FractionText(Numeral(false, "0", fraction, None)); Spells(b, i, t) && End(i, t) == FractionEnd(b, i)
  {
    hide SkipDigits, Spells, End;
    if Sees(b, i, '.') {
      var ds := DigitsIn(b, i + 1);
      SpellsCons(b, i, '.', ds);
      fraction := Some(ds);
      assert "." + ds == ['.'] + ds;
    } else {
      SpellsNothing(b, i);
      fraction := None;
    }
  }

  lemma ExponentIn(b: seq<byte>, i: nat) returns (exponent: Option<Exponent>)
    requires i <= |b|
    ensures LegalNumeral(Numeral(false, "0", None, exponent), false)
    ensures var t := ExponentText(Numeral(false, "0", None, exponent)); Spells(b, i, t) && End(i, t) == ExponentEnd(b, i)
  {
    hide SkipDigits, Spells, End;
    if Sees(b, i, 'e') || Sees(b, i, 'E') {
      var j := i + 1;
      var k := if Sees(b, j, '+') || Sees(b, j, '-') then j + 1 else j;
      var sign := AsciiIn(b, j, k);
      var ds := DigitsIn(b, k);
      SpellsJoin(b, j, sign, ds);
      var e := if Sees(b, i, 'e') then 'e' else 'E';
      SpellsCons(b, i, e, sign + ds);
      exponent := Some(Exponent(e, sign, ds));
      assert sign == if Sees(b, j, '+') then "+" else if Sees(b, j, '-') then "-" else "";
    } else {
      SpellsNothing(b, i);
      exponent := None;
    }
  }

  lemma NumeralIn(b: seq<byte>, i: nat) returns (n: Numeral)
    requires i < |b| && (b[i] == '-' as int || IsDigit(b[i]))
    ensures LegalNumeral(n, false) && Spells(b, i, NumeralText(n)) && End(i, NumeralText(n)) == NumberEnd(b, i)
  {
    hide SkipDigits, Spells, End, IntegerEnd, FractionEnd, ExponentEnd;
    var neg, ds := IntegerIn(b, i);
    var m := IntegerEnd(b, i);
    var fraction := FractionIn(b, m);
    var exponent := ExponentIn(b, FractionEnd(b, m));
    n := Numeral(neg, ds, fraction, exponent);
    SpellsJoin(b, m, FractionText(n), ExponentText(n));
    SpellsJoin(b, End(i, SignText(n)), ds, FractionText(n) + ExponentText(n));
    SpellsJoin(b, i, SignText(n), ds + (FractionText(n) + ExponentText(n)));
  }

  // ---------------------------------------------------------------- strings

  lemma HexCharOf(x: byte)
    requires HexValue(x).Some?
    ensures HexValue(x).value < 16 && x < 0x80 && HexChar(x as char, HexValue(x).value)
  {
  }

  lemma HexParts3(hex: seq<byte>)
    requires |hex| == 3 && HexNumber(hex).Some?
    ensures HexValue(hex[0]).Some? && HexValue(hex[1]).Some? && HexValue(hex[2]).Some?
    ensures HexNumber(hex).value == HexValue(hex[0]).value * 256 + HexValue(hex[1]).value * 16 + HexValue(hex[2]).value
  {
    hide HexValue;
    var two := hex[..2];
    assert two[..1][..0] == [] && two[..1][0] == hex[0] && two[1] == hex[1];
    assert HexNumber(two).Some? && HexNumber(two[..1]).Some? && HexNumber([]) == Some(0);
    HexNumber3(hex, HexValue(hex[0]).value, HexValue(hex[1]).value, HexValue(hex[2]).value);
  }

  lemma Hex3Of(t: string, a: nat, c: nat, d: nat)
    requires |t| == 3 && a < 16 && c < 16 && d < 16 && HexChar(t[0], a) && HexChar(t[1], c) && HexChar(t[2], d)
    ensures Hex3(t, a * 256 + c * 16 + d) && a * 256 + c * 16 + d < 0x1000
  {
    hide HexChar;
    var n := a * 256 + c * 16 + d;
    assert n / 256 == a && n / 16 % 16 == c && n % 16 == d;
  }

  /** Four bytes the library reads as a number are one of its forms. */
  lemma HexFormOf(hex: seq<byte>, t: string)
    requires |hex| == 4 == |t| && HexCode(hex).Some? && forall k :: 0 <= k < 4 ==> t[k] as int == hex[k]
    ensures HexForm(t, HexCode(hex).value, false) && HexCode(hex).value < 0x1_0000
    ensures forall k :: 0 <= k < 4 ==> hex[k] < 0x80
  {
    hide HexChar, HexValue, HexNumber, Hex3;
    if hex[0] != '+' as int {
      HexLast(hex);
    }
    HexParts3(if hex[0] == '+' as int then hex[1..] else hex[..3]);
    HexCharOf(hex[1]);
    HexCharOf(hex[2]);
    HexCharOf(hex[3]);
    var c, d, e := HexValue(hex[1]).value, HexValue(hex[2]).value, HexValue(hex[3]).value;
    Hex3Of(t[1..], c, d, e);
    if hex[0] != '+' as int {
      HexCharOf(hex[0]);
      var n := HexCode(hex).value;
      assert n == HexValue(hex[0]).value * 4096 + (c * 256 + d * 16 + e);
      assert n / 4096 == HexValue(hex[0]).value && n % 4096 == c * 256 + d * 16 + e;
    }
  }

  lemma HexLast(hex: seq<byte>)
    requires |hex| == 4 && HexNumber(hex).Some?
    ensures HexNumber(hex[..3]).Some? && HexValue(hex[3]).Some?
    ensures HexNumber(hex).value == HexNumber(hex[..3]).value * 16 + HexValue(hex[3]).value
  {
  }

  lemma PartOfText(b: seq<byte>, i: nat, t: string, m: nat, n: nat)
    requires m <= n <= |t| && i + |t| <= |b| && forall k :: 0 <= k < |t| ==> t[k] as int == b[i + k]
    requires forall k :: i + m <= k < i + n ==> b[k] < 0x80
    ensures t[m..n] == AsciiText(b[i + m..i + n])
  {
    var u := AsciiText(b[i + m..i + n]);
    forall k | 0 <= k < n - m ensures t[m..n][k] == u[k] {
      assert t[m + k] as int == b[i + (m + k)];
    }
  }

  /** One numbered escape. */
  lemma NumberedIn(b: seq<byte>, i: nat) returns (x: Spelled)
    requires i + 6 <= |b| && Sees(b, i, '\\') && Sees(b, i + 1, 'u') && HexCode(b[i + 2..i + 6]).Some?
    ensures x.code == HexCode(b[i + 2..i + 6]).value && Spelling(x.text, x.code, false)
    ensures Spells(b, i, x.text) && End(i, x.text) == i + 6
  {
    hide HexCode, HexForm, Spells, End;
    var hex := b[i + 2..i + 6];
    HexCodeBound(hex);
    AsciiSlice(b, i + 2, i + 6);
    var text := AsciiIn(b, i, i + 6);
    PartOfText(b, i, text, 2, 6);
    HexFormOf(hex, AsciiText(hex));
    assert text[2..6] == text[2..];
    x := Spelled(HexCode(hex).value, text);
  }

  /** A numbered escape that is accepted: one, or two for a pair of halves. */
  lemma UnicodeIn(b: seq<byte>, i: nat) returns (xs: seq<Spelled>)
    requires i + 2 <= |b| && Sees(b, i, '\\') && Sees(b, i + 1, 'u') && UnicodeEscape(b, i + 2).Ok?
    ensures LegalChars(xs, false) && Spells(b, i, CharsText(xs)) && End(i, CharsText(xs)) == UnicodeEscape(b, i + 2).next
  {
    hide Utf8.Valid, Utf8.EncodeChar, HexCode, Spelling, Combine, Spells, End;
    var x := NumberedIn(b, i);
    OneChar(x);
    xs := [x];
    if 0xD800 <= x.code <= 0xDBFF {
      var y := NumberedIn(b, i + 6);
      OneChar(y);
      xs := [x] + [y];
      SpellsJoin(b, i, x.text, y.text);
      CharsTextConcat([x], [y]);
    }
  }

  lemma CharsTextStep(xs: seq<Spelled>)
    ensures CharsText([]) == ""
    ensures xs != [] ==> CharsText(xs) == xs[0].text + CharsText(xs[1..])
  {
  }

  lemma {:induction false} CharsTextConcat(xs: seq<Spelled>, ys: seq<Spelled>)
    ensures CharsText(xs + ys) == CharsText(xs) + CharsText(ys)
  {
    hide CharsText;
    CharsTextStep(xs);
    if xs == [] {
      NothingAndMore(ys);
      NothingAndMore(CharsText(ys));
    } else {
      CharsTextStep(xs + ys);
      FirstOfConcat(xs, ys);
      CharsTextConcat(xs[1..], ys);
      Regroup(xs[0].text, CharsText(xs[1..]), CharsText(ys));
    }
  }

  /** A two-character escape that is accepted. */
  lemma ShortIn(b: seq<byte>, i: nat) returns (x: Spelled)
    requires i + 2 <= |b| && Sees(b, i, '\\') && SimpleEscape(b[i + 1]).Some?
    ensures Spelling(x.text, x.code, false) && Spells(b, i, x.text) && End(i, x.text) == i + 2
  {
    hide Spells, End;
    var t := AsciiIn(b, i, i + 2);
    x := Spelled(SimpleEscape(b[i + 1]).value, t);
    assert t[0] as int == b[i + 0] && t[1] as int == b[i + 1];
  }

  /** What one turn of the string loop reads, and the rest of the string. */
  lemma SpelledIn(b: seq<byte>, i: nat, out: seq<byte>) returns (xs: seq<Spelled>, j: nat, more: seq<byte>)
    requires i < |b| && Boundary(b, i) && StringBody(b, i, out).Ok? && !Sees(b, i, '\"')
    ensures LegalChars(xs, false) && Spells(b, i, CharsText(xs)) && End(i, CharsText(xs)) == j
    ensures i < j <= |b| && Boundary(b, j) && StringBody(b, j, more) == StringBody(b, i, out)
  {
    hide UnicodeEscape, Utf8.Decode, Utf8.Valid, Utf8.Encode, Utf8.EncodeChar, Boundary, SimpleEscape, Spelling, CharsText;
    hide Spells, End;
    if b[i] == '\\' as int {
      var e := EscapeSequence(b, i + 1);
      AsciiKeepsBoundary(b, i, i + 1);
      EscapeSequenceSound(b, i + 1);
      j, more := e.next, out + e.value;
      if SimpleEscape(b[i + 1]).Some? {
        var x := ShortIn(b, i);
        OneChar(x);
        xs := [x];
      } else {
        xs := UnicodeIn(b, i);
      }
    } else {
      var x;
      x, j := PlainIn(b, i);
      OneChar(x);
      xs := [x];
      more := out + b[i..j];
      PlainCopied(b, i, j, out);
    }
  }

  lemma PlainCopied(b: seq<byte>, i: nat, j: nat, out: seq<byte>)
    requires i < j <= |b| && b[i] >= 0x20 && b[i] != '\"' as int && b[i] != '\\' as int
    requires if b[i] < 0x80 then j == i + 1 else forall k :: i <= k < j ==> b[k] >= 0x80
    ensures StringBody(b, i, out) == StringBody(b, j, out + b[i..j])
  {
    hide EscapeSequence, Utf8.Decode;
    if b[i] < 0x80 {
      assert b[i..j] == [b[i]];
    } else {
      CopiesRaw(b, i, j, out);
    }
  }

  lemma PlainIn(b: seq<byte>, i: nat) returns (x: Spelled, j: nat)
    requires i < |b| && Boundary(b, i) && b[i] >= 0x20 && b[i] != '\"' as int && b[i] != '\\' as int
    ensures Spelling(x.text, x.code, false) && Spells(b, i, x.text) && End(i, x.text) == j
    ensures i < j <= |b| && Boundary(b, j)
    ensures if b[i] < 0x80 then j == i + 1 else forall k :: i <= k < j ==> b[k] >= 0x80
  {
    j := HeadBoundary(b, i);
    var c := HeadIn(b, i, j);
    x := Spelled(c as int, [c]);
    hide Utf8.EncodeChar, Utf8.Encode, Utf8.Valid;
    Utf8.EncodeOne(c);
  }

  /** The character that well-formed bytes up to the next boundary stand for. */
  lemma HeadIn(b: seq<byte>, i: nat, j: nat) returns (c: char)
    requires i < |b| && Boundary(b, i) && j == i + Utf8.HeadLength(b[i..]) <= |b|
    ensures Utf8.EncodeChar(c) == b[i..j] && (b[i] < 0x80 ==> c as int == b[i]) && (b[i] >= 0x80 ==> c as int >= 0x80)
  {
    var rest := b[i..];
    c := Utf8.HeadChar(rest);
    Utf8.EncodeHeadChar(rest);
    assert rest[..j - i] == b[i..j];
    assert Utf8.EncodeChar(c)[0] == b[i];
  }

  lemma {:induction false} CharsIn(b: seq<byte>, i: nat, out: seq<byte>) returns (xs: seq<Spelled>)
    requires i <= |b| && Boundary(b, i) && StringBody(b, i, out).Ok?
    ensures LegalChars(xs, false) && Spells(b, i, CharsText(xs) + "\"")
    ensures End(i, CharsText(xs) + "\"") == StringBody(b, i, out).next
    decreases |b| - i
  {
    hide Utf8.Decode, Utf8.Encode, EscapeSequence, Boundary, Spelling;
    if Sees(b, i, '\"') {
      xs := [];
      SpellsNothing(b, i + 1);
      SpellsCons(b, i, '\"', "");
      assert CharsText(xs) + "\"" == ['\"'] + "";
    } else {
      var first, j, more := SpelledIn(b, i, out);
      var rest := CharsIn(b, j, more);
      hide StringBody, Spells, End, CharsText;
      xs := first + rest;
      SpellsJoin(b, i, CharsText(first), CharsText(rest) + "\"");
      CharsTextConcat(first, rest);
      Regroup(CharsText(first), CharsText(rest), "\"");
    }
  }

  lemma QuotedIn(b: seq<byte>, i: nat) returns (xs: seq<Spelled>)
    requires i <= |b| && Boundary(b, i) && StringAt(b, i).Ok?
    ensures LegalChars(xs, false) && Spells(b, i, Quoted(xs)) && End(i, Quoted(xs)) == StringAt(b, i).next
  {
    hide StringBody, Boundary, CharsText, Spells, End, LegalChars;
    AsciiKeepsBoundary(b, i, i + 1);
    xs := CharsIn(b, i + 1, []);
    SpellsCons(b, i, '\"', CharsText(xs) + "\"");
    assert "\"" == ['\"'];
  }

  // ---------------------------------------------------------------- values

  lemma LiteralIn(b: seq<byte>, i: nat, t: string, text: seq<byte>, v: Json)
    requires i <= |b| && Literal(b, i, text, v).Ok? && Ascii(t)
    requires |text| == |t| && forall k :: 0 <= k < |t| ==> text[k] == t[k] as int
    ensures Spells(b, i, t) && End(i, t) == Literal(b, i, text, v).next
  {
    hide Spells, End;
    forall k | i <= k < i + |t| ensures b[k] == t[k - i] as int && b[k] < 0x80 {
      assert b[i..i + |text|][k - i] == text[k - i] && t[k - i] in t;
    }
    AsciiSpells(b, i, t);
  }

  /** An accepted value is written as some legal tree. */
  lemma {:induction false} ValueIn(lib: FloatLib, b: seq<byte>, i: nat, d: nat) returns (t: Tree)
    requires i <= |b| && Boundary(b, i) && SkipSpace(b, i) == i && ValueAt(lib, b, i, d).Ok?
    ensures Legal(t, false) && Spells(b, i, Unparse(t)) && End(i, Unparse(t)) == ValueAt(lib, b, i, d).next
    decreases |b| - i, 2
  {
    hide Boundary, SkipSpace, ObjectAt, ArrayAt, StringAt, NumberAt, Literal, Legal, Unparse, Spells, End;
    if b[i] == '{' as int {
      t := RecordIn(lib, b, i, d);
    } else if b[i] == '[' as int {
      t := ListIn(lib, b, i, d);
    } else {
      t := LeafIn(lib, b, i, d);
    }
  }

  lemma LeafIn(lib: FloatLib, b: seq<byte>, i: nat, d: nat) returns (t: Tree)
    requires i < |b| && Boundary(b, i) && SkipSpace(b, i) == i && ValueAt(lib, b, i, d).Ok?
    requires b[i] != '{' as int && b[i] != '[' as int
    ensures Legal(t, false) && Spells(b, i, Unparse(t)) && End(i, Unparse(t)) == ValueAt(lib, b, i, d).next
  {
    hide Boundary, SkipSpace, ObjectAt, ArrayAt, StringAt, NumberEnd, IntegerEnd, Literal, Spells, End;
    hide LegalNumeral, NumeralText, Quoted, LegalChars;
    if b[i] == '\"' as int {
      var xs := QuotedIn(b, i);
      t := Text(xs);
    } else if b[i] == 't' as int {
      LiteralIn(b, i, "true", TRUE_TEXT, Bool(true));
      t := BoolWord(true);
    } else if b[i] == 'f' as int {
      LiteralIn(b, i, "false", FALSE_TEXT, Bool(false));
      t := BoolWord(false);
    } else if b[i] == 'n' as int {
      LiteralIn(b, i, "null", NULL_TEXT, Null);
      t := NullWord;
    } else {
      var n := NumeralIn(b, i);
      t := Number(n);
    }
  }

  lemma SpaceSkipped(b: seq<byte>, i: nat)
    requires i <= |b|
    ensures SkipSpace(b, SkipSpace(b, i)) == SkipSpace(b, i)
  {
    hide SkipSpace;
    SkipsNothing(b, SkipSpace(b, i));
  }

  lemma {:induction false} ListIn(lib: FloatLib, b: seq<byte>, i: nat, d: nat) returns (t: Tree)
    requires i < |b| && Boundary(b, i) && ArrayAt(lib, b, i, d).Ok?
    ensures Legal(t, false) && Spells(b, i, Unparse(t)) && End(i, Unparse(t)) == ArrayAt(lib, b, i, d).next
    decreases |b| - i, 1
  {
    hide Boundary, SkipSpace, ItemsAt, ItemsText, Blank, Spells, End, Tail, LegalTail;
    AsciiKeepsBoundary(b, i, i + 1);
    SkipSpaceKeepsBoundary(b, i + 1);
    SpaceSkipped(b, i + 1);
    var before := BlankIn(b, i + 1);
    var j := SkipSpace(b, i + 1);
    if Sees(b, j, ']') {
      t := List([], false, before);
      EmptyIn(b, i, '[', before, ']');
      EmptyLegal(before);
    } else {
      var items, comma, tail := ItemsIn(lib, b, j, d, before);
      t := List(items, comma, tail);
      var rest := ItemsText(items) + (Tail(comma, tail) + "]");
      SpellsJoin(b, i + 1, before, rest);
      SpellsCons(b, i, '[', before + rest);
      assert "[" == ['['];
    }
  }

  lemma EmptyLegal(before: string)
    requires Blank(before)
    ensures LegalTail(true, false, before, false)
  {
  }

  lemma EmptyIn(b: seq<byte>, i: nat, open: char, before: string, close: char)
    requires Sees(b, i, open) && open as int < 0x80 && close as int < 0x80
    requires Spells(b, i + 1, before) && Sees(b, End(i + 1, before), close)
    ensures Spells(b, i, [open] + (before + [close])) && End(i, [open] + (before + [close])) == End(i + 1, before) + 1
  {
    hide Spells, End;
    var j := End(i + 1, before);
    SpellsNothing(b, j + 1);
    SpellsCons(b, j, close, "");
    assert [close] + "" == [close];
    SpellsJoin(b, i + 1, before, [close]);
    SpellsCons(b, i, open, before + [close]);
  }

  /** The text from a value on, from its parts. */
  lemma JoinItem(b: seq<byte>, i: nat, first: string, after: string, more: string, close: string)
    requires Spells(b, i, first) && Spells(b, End(i, first), after) && Spells(b, End(End(i, first), after), more + close)
    ensures Spells(b, i, first + (after + more) + close)
    ensures End(i, first + (after + more) + close) == End(End(End(i, first), after), more + close)
  {
    hide Spells, End;
    var e := End(i, first);
    SpellsJoin(b, e, after, more + close);
    SpellsJoin(b, i, first, after + (more + close));
    Regroup(first, after + more, close);
    Regroup(after, more, close);
  }

  /** The text from a comma on, from its parts. */
  lemma JoinComma(b: seq<byte>, k: nat, before: string, rest: string, close: string)
    requires Sees(b, k, ',') && Spells(b, k + 1, before) && Spells(b, End(k + 1, before), rest + close)
    ensures Spells(b, k, "," + (before + rest) + close)
    ensures End(k, "," + (before + rest) + close) == End(End(k + 1, before), rest + close)
  {
    hide Spells, End;
    SpellsJoin(b, k + 1, before, rest + close);
    SpellsCons(b, k, ',', before + (rest + close));
    CommaFirst(before, rest, close);
  }

  /** The end of a list, from its parts. */
  lemma EndIn(b: seq<byte>, k: nat, close: char) returns (comma: bool, tail: string)
    requires k < |b| && (close == ']' || close == '}')
    requires Sees(b, k, close) || (Sees(b, k, ',') && Sees(b, SkipSpace(b, k + 1), close))
    ensures LegalTail(false, comma, tail, false) && comma == Sees(b, k, ',')
    ensures Spells(b, k, "" + (Tail(comma, tail) + [close]))
    ensures End(k, "" + (Tail(comma, tail) + [close])) == if comma then SkipSpace(b, k + 1) + 1 else k + 1
  {
    hide Spells, End, SkipSpace;
    comma, tail := Sees(b, k, ','), "";
    var c := if comma then SkipSpace(b, k + 1) else k;
    SpellsNothing(b, c + 1);
    SpellsCons(b, c, close, "");
    assert [close] + "" == [close];
    if comma {
      tail := BlankIn(b, k + 1);
      SpellsJoin(b, k + 1, tail, [close]);
      SpellsCons(b, k, ',', tail + [close]);
      assert "" + (Tail(comma, tail) + [close]) == [','] + (tail + [close]);
    } else {
      assert "" + (Tail(comma, tail) + [close]) == [close];
    }
  }

  /** How an accepted list goes on after a value. */
  lemma ItemsGoOn(lib: FloatLib, b: seq<byte>, i: nat, d: nat)
    requires i <= |b| && ItemsAt(lib, b, i, d).Ok?
    ensures ValueAt(lib, b, i, d + 1).Ok?
    ensures var k := SkipSpace(b, ValueAt(lib, b, i, d + 1).next);
            && k < |b| && (Sees(b, k, ',') || Sees(b, k, ']'))
            && (Sees(b, k, ']') ==> ItemsAt(lib, b, i, d).next == k + 1)
            && (Sees(b, k, ',') ==> var m := SkipSpace(b, k + 1);
                  && (Sees(b, m, ']') ==> ItemsAt(lib, b, i, d).next == m + 1)
                  && (!Sees(b, m, ']') ==> ItemsAt(lib, b, m, d).Ok? && ItemsAt(lib, b, i, d).next == ItemsAt(lib, b, m, d).next))
  {
    hide ValueAt, SkipSpace;
  }

  lemma {:induction false} ItemsIn(lib: FloatLib, b: seq<byte>, i: nat, d: nat, before: string)
    returns (items: seq<Item>, comma: bool, tail: string)
    requires i <= |b| && Boundary(b, i) && SkipSpace(b, i) == i && ItemsAt(lib, b, i, d).Ok? && Blank(before)
    ensures items != [] && items[0].before == before && LegalItems(items) && LegalTail(false, comma, tail, false)
    ensures Spells(b, i, ItemsText(items) + (Tail(comma, tail) + "]"))
    ensures End(i, ItemsText(items) + (Tail(comma, tail) + "]")) == ItemsAt(lib, b, i, d).next
    decreases |b| - i, 3
  {
    hide Boundary, SkipSpace, ValueAt, ItemsAt, Unparse, ItemsText, MoreItems, Tail, LegalTail, Legal, Blank;
    hide Spells, End;
    ItemsGoOn(lib, b, i, d);
    var value := ValueIn(lib, b, i, d + 1);
    ValueSound(lib, b, i, d + 1);
    var e := ValueAt(lib, b, i, d + 1).next;
    var after := BlankIn(b, e);
    var k := SkipSpace(b, e);
    SkipSpaceKeepsBoundary(b, e);
    var rest: seq<Item> := [];
    var m := if Sees(b, k, ',') then SkipSpace(b, k + 1) else k;
    if Sees(b, m, ']') {
      comma, tail := EndIn(b, k, ']');
    } else {
      AsciiKeepsBoundary(b, k, k + 1);
      SkipSpaceKeepsBoundary(b, k + 1);
      SpaceSkipped(b, k + 1);
      var next := BlankIn(b, k + 1);
      rest, comma, tail := ItemsIn(lib, b, m, d, next);
      JoinComma(b, k, next, ItemsText(rest), Tail(comma, tail) + "]");
    }
    items := [Item(before, value, after)] + rest;
    JoinItems(b, i, items, rest, Tail(comma, tail) + "]");
  }

  /** The text of a list from its first value on, from its parts. */
  lemma JoinItems(b: seq<byte>, i: nat, items: seq<Item>, rest: seq<Item>, close: string)
    requires items != [] && items[1..] == rest
    requires var e := End(i, Unparse(items[0].value));
             && Spells(b, i, Unparse(items[0].value)) && Spells(b, e, items[0].after)
             && Spells(b, End(e, items[0].after), (if rest == [] then "" else "," + (rest[0].before + ItemsText(rest))) + close)
    ensures Spells(b, i, ItemsText(items) + close)
    ensures End(i, ItemsText(items) + close)
         == End(End(End(i, Unparse(items[0].value)), items[0].after),
                (if rest == [] then "" else "," + (rest[0].before + ItemsText(rest))) + close)
  {
    hide Spells, End, Unparse, ItemsText, MoreItems;
    ItemsParts(items, rest);
    JoinItem(b, i, Unparse(items[0].value), items[0].after, MoreItems(rest), close);
  }

  lemma ItemsParts(items: seq<Item>, rest: seq<Item>)
    requires items != [] && items[1..] == rest
    ensures ItemsText(items) == Unparse(items[0].value) + (items[0].after + MoreItems(rest))
    ensures MoreItems(rest) == if rest == [] then "" else "," + (rest[0].before + ItemsText(rest))
  {
    hide Unparse;
  }

  // ---------------------------------------------------------------- objects

  lemma {:induction false} RecordIn(lib: FloatLib, b: seq<byte>, i: nat, d: nat) returns (t: Tree)
    requires i < |b| && Boundary(b, i) && ObjectAt(lib, b, i, d).Ok?
    ensures Legal(t, false) && Spells(b, i, Unparse(t)) && End(i, Unparse(t)) == ObjectAt(lib, b, i, d).next
    decreases |b| - i, 1
  {
    hide Boundary, SkipSpace, MembersAt, MembersText, Blank, Spells, End, Tail, LegalTail, LegalChars;
    AsciiKeepsBoundary(b, i, i + 1);
    SkipSpaceKeepsBoundary(b, i + 1);
    SpaceSkipped(b, i + 1);
    var before := BlankIn(b, i + 1);
    var j := SkipSpace(b, i + 1);
    if Sees(b, j, '}') {
      t := Record([], false, before);
      EmptyIn(b, i, '{', before, '}');
      EmptyLegal(before);
    } else {
      var ms, comma, tail := MembersIn(lib, b, j, d, before);
      t := Record(ms, comma, tail);
      var rest := MembersText(ms) + (Tail(comma, tail) + "}");
      SpellsJoin(b, i + 1, before, rest);
      SpellsCons(b, i, '{', before + rest);
      assert "{" == ['{'];
    }
  }

  /** A value may be read from the white space before it. */
  lemma ValueSkips(lib: FloatLib, b: seq<byte>, i: nat, d: nat)
    requires i <= |b| && d <= 512
    ensures ValueAt(lib, b, SkipSpace(b, i), d) == ValueAt(lib, b, i, d)
  {
    hide SkipSpace, ObjectAt, ArrayAt, StringAt, NumberAt, Literal;
    SpaceSkipped(b, i);
  }

  /** Where the parts of an accepted member lie. */
  lemma MemberGoesOn(lib: FloatLib, b: seq<byte>, i: nat, d: nat)
    requires i <= |b| && SkipSpace(b, i) == i && MemberAt(lib, b, i, d).Ok?
    ensures StringAt(b, i).Ok? && d + 1 <= 512
    ensures Sees(b, SkipSpace(b, StringAt(b, i).next), ':')
    ensures var v := ValueAt(lib, b, SkipSpace(b, StringAt(b, i).next) + 1, d + 1);
            v.Ok? && v.next == MemberAt(lib, b, i, d).next
  {
    hide SkipSpace, StringAt, ObjectAt, ArrayAt, NumberAt, Literal;
  }

  lemma JoinMember(b: seq<byte>, i: nat, m: Member)
    requires var q := End(i, Quoted(m.key)); var c := End(q, m.afterKey);
             && Spells(b, i, Quoted(m.key)) && Spells(b, q, m.afterKey) && Sees(b, c, ':')
             && Spells(b, c + 1, m.beforeValue) && Spells(b, End(c + 1, m.beforeValue), Unparse(m.value))
    ensures Spells(b, i, MemberText(m))
    ensures End(i, MemberText(m)) == End(End(End(End(i, Quoted(m.key)), m.afterKey) + 1, m.beforeValue), Unparse(m.value))
  {
    hide Spells, End, Quoted, Unparse;
    var q := End(i, Quoted(m.key));
    var c := End(q, m.afterKey);
    var value := m.beforeValue + Unparse(m.value);
    SpellsJoin(b, c + 1, m.beforeValue, Unparse(m.value));
    SpellsCons(b, c, ':', value);
    assert ":" == [':'];
    SpellsJoin(b, q, m.afterKey, ":" + value);
    SpellsJoin(b, i, Quoted(m.key), m.afterKey + (":" + value));
  }

  lemma {:induction false} MemberIn(lib: FloatLib, b: seq<byte>, i: nat, d: nat, before: string) returns (m: Member)
    requires i <= |b| && Boundary(b, i) && SkipSpace(b, i) == i && MemberAt(lib, b, i, d).Ok? && Blank(before)
    ensures m.before == before && LegalMember(m.(after := "")) && Spells(b, i, MemberText(m))
    ensures End(i, MemberText(m)) == MemberAt(lib, b, i, d).next
    decreases |b| - i, 0
  {
    hide Boundary, SkipSpace, ValueAt, StringAt, MemberAt, Unparse, Quoted, Legal, LegalChars, Spells, End;
    MemberGoesOn(lib, b, i, d);
    var key := QuotedIn(b, i);
    StringSound(b, i);
    var q := StringAt(b, i).next;
    var afterKey := BlankIn(b, q);
    SkipSpaceKeepsBoundary(b, q);
    var c := SkipSpace(b, q);
    AsciiKeepsBoundary(b, c, c + 1);
    SkipSpaceKeepsBoundary(b, c + 1);
    var beforeValue := BlankIn(b, c + 1);
    ValueSkips(lib, b, c + 1, d + 1);
    SpaceSkipped(b, c + 1);
    var value := ValueIn(lib, b, SkipSpace(b, c + 1), d + 1);
    m := Member(before, key, afterKey, beforeValue, value, "");
    JoinMember(b, i, m);
  }

  /** How an accepted object goes on after a member. */
  lemma MembersGoOn(lib: FloatLib, b: seq<byte>, i: nat, d: nat)
    requires i <= |b| && MembersAt(lib, b, i, d).Ok?
    ensures MemberAt(lib, b, i, d).Ok?
    ensures var k := SkipSpace(b, MemberAt(lib, b, i, d).next);
            && k < |b| && (Sees(b, k, ',') || Sees(b, k, '}'))
            && (Sees(b, k, '}') ==> MembersAt(lib, b, i, d).next == k + 1)
            && (Sees(b, k, ',') ==> var m := SkipSpace(b, k + 1);
                  && (Sees(b, m, '}') ==> MembersAt(lib, b, i, d).next == m + 1)
                  && (!Sees(b, m, '}') ==> MembersAt(lib, b, m, d).Ok? && MembersAt(lib, b, i, d).next == MembersAt(lib, b, m, d).next))
  {
    hide MemberAt, SkipSpace;
  }

  lemma {:induction false} MembersIn(lib: FloatLib, b: seq<byte>, i: nat, d: nat, before: string)
    returns (ms: seq<Member>, comma: bool, tail: string)
    requires i <= |b| && Boundary(b, i) && SkipSpace(b, i) == i && MembersAt(lib, b, i, d).Ok? && Blank(before)
    ensures ms != [] && ms[0].before == before && LegalMembers(ms) && LegalTail(false, comma, tail, false)
    ensures Spells(b, i, MembersText(ms) + (Tail(comma, tail) + "}"))
    ensures End(i, MembersText(ms) + (Tail(comma, tail) + "}")) == MembersAt(lib, b, i, d).next
    decreases |b| - i, 3
  {
    hide Boundary, SkipSpace, MemberAt, MembersAt, MemberText, MembersText, MoreMembers, Tail, LegalTail, Legal;
    hide LegalChars, Blank, Spells, End;
    MembersGoOn(lib, b, i, d);
    var m0 := MemberIn(lib, b, i, d, before);
    MemberSound(lib, b, i, d);
    var e := MemberAt(lib, b, i, d).next;
    var after := BlankIn(b, e);
    var k := SkipSpace(b, e);
    SkipSpaceKeepsBoundary(b, e);
    var rest: seq<Member> := [];
    var m := if Sees(b, k, ',') then SkipSpace(b, k + 1) else k;
    if Sees(b, m, '}') {
      comma, tail := EndIn(b, k, '}');
    } else {
      AsciiKeepsBoundary(b, k, k + 1);
      SkipSpaceKeepsBoundary(b, k + 1);
      SpaceSkipped(b, k + 1);
      var next := BlankIn(b, k + 1);
      rest, comma, tail := MembersIn(lib, b, m, d, next);
      JoinComma(b, k, next, MembersText(rest), Tail(comma, tail) + "}");
    }
    ms := [m0.(after := after)] + rest;
    MembersParts(ms, rest, m0);
    JoinItem(b, i, MemberText(m0), after, MoreMembers(rest), Tail(comma, tail) + "}");
  }

  lemma MembersParts(ms: seq<Member>, rest: seq<Member>, m0: Member)
    requires ms != [] && ms[1..] == rest && ms[0] == m0.(after := ms[0].after)
    ensures MembersText(ms) == MemberText(m0) + (ms[0].after + MoreMembers(rest))
    ensures MoreMembers(rest) == if rest == [] then "" else "," + (rest[0].before + MembersText(rest))
  {
    hide Unparse, Quoted;
  }

  // ---------------------------------------------------------------- documents

  ghost predicate IsDocument(text: string, lead: string, t: Tree, trail: string) {
    Blank(lead) && Legal(t, false) && Blank(trail) && text == DocumentText(lead, t, trail)
  }

  lemma EncodeInjective(s: string, t: string)
    requires Utf8.Encode(s) == Utf8.Encode(t)
    ensures s == t
  {
    Utf8.DecodeEncode(s);
    Utf8.DecodeEncode(t);
  }

  /** An accepted text is a text of some legal tree. */
  lemma DocumentIn(lib: FloatLib, text: string) returns (lead: string, t: Tree, trail: string)
    requires ParseText(lib, text).Ok?
    ensures IsDocument(text, lead, t, trail)
  {
    hide Utf8.Encode, Utf8.Valid, Boundary, ValueAt, SkipSpace, Unparse, Legal, Blank, Spells, End;
    var b := Utf8.Encode(text);
    Utf8.ValidEncode(text);
    StartsAtBoundary(b);
    lead := BlankIn(b, 0);
    SkipSpaceKeepsBoundary(b, 0);
    SpaceSkipped(b, 0);
    var i := SkipSpace(b, 0);
    t := ValueIn(lib, b, i, 0);
    var e := ValueAt(lib, b, i, 0).next;
    trail := BlankIn(b, e);
    SpellsJoin(b, i, Unparse(t), trail);
    SpellsJoin(b, 0, lead, Unparse(t) + trail);
    SpelledWhole(b, DocumentText(lead, t, trail));
    EncodeInjective(text, DocumentText(lead, t, trail));
  }

  lemma StartsAtBoundary(b: seq<byte>)
    requires Utf8.Valid(b)
    ensures Boundary(b, 0)
  {
    assert b[0..] == b;
  }

  lemma SpelledWhole(b: seq<byte>, t: string)
    requires Spells(b, 0, t) && End(0, t) == |b|
    ensures Utf8.Encode(t) == b
  {
    assert b[0..|b|] == b;
  }

  /**
   The parser accepts a text with a value exactly when the text is one of the texts of a legal tree that is nested at most 512
   deep and stands for that value.
   */
  lemma LanguageExact(lib: FloatLib, text: string, v: Json)
    ensures ParseText(lib, text).Ok? && ParseText(lib, text).value == v
       <==> exists lead, t, trail ::
              IsDocument(text, lead, t, trail) && TreeDepth(t) <= 512 && Denote(lib, t) == Some(v)
  {
    hide ParseText, TreeDepth, Denote, Legal, Blank, DocumentText, Fault;
    if ParseText(lib, text).Ok? {
      var lead, t, trail := DocumentIn(lib, text);
      ReadsDocument(lib, lead, t, trail);
      FaultExactly(lib, t, 0);
      assert IsDocument(text, lead, t, trail);
    }
    forall lead, t, trail | IsDocument(text, lead, t, trail) && TreeDepth(t) <= 512 && Denote(lib, t) == Some(v)
      ensures ParseText(lib, text).Ok? && ParseText(lib, text).value == v
    {
      ReadsDocument(lib, lead, t, trail);
      FaultExactly(lib, t, 0);
    }
  }

  /** Section 5 of RFC 8259 allows no comma before the closing bracket; here it changes nothing. */
  lemma TrailingCommaAccepted(lib: FloatLib, items: seq<Item>)
    requires items != [] && Legal(List(items, false, ""), false)
    requires TreeDepth(List(items, false, "")) <= 512 && Denote(lib, List(items, false, "")).Some?
    ensures var r := ParseText(lib, Unparse(List(items, true, "")));
            r.Ok? && r.value == Denote(lib, List(items, false, "")).value
  {
    hide ParseText, Unparse, ItemsDepth, DenoteItems, Fault;
    var t, u := List(items, false, ""), List(items, true, "");
    assert Legal(u, false) && Denote(lib, u) == Denote(lib, t) && TreeDepth(u) == TreeDepth(t);
    NothingIsBlank();
    Alone(u);
    ReadsDocument(lib, "", u, "");
    FaultExactly(lib, u, 0);
  }

  /** Section 7 of RFC 8259 asks for four hexadecimal digits; the parser also takes a plus sign and three. */
  lemma PlusSignAccepted(lib: FloatLib, x: string, c: char)
    requires Hex3(x, c as int)
    ensures ParseText(lib, "\"\\u+" + (x + "\"")).Ok? && ParseText(lib, "\"\\u+" + (x + "\"")).value == Str([c])
  {
    var s := Spelled(c as int, "\\u+" + x);
    PlusSpelling(s, x);
    hide ParseText, Spelling, Hex3;
    OneChar(s);
    assert Scalar(s.code);
    var t := Text([s]);
    assert Legal(t, false) && Denote(lib, t) == Some(Str([c]));
    assert Unparse(t) == "\"\\u+" + (x + "\"");
    hide Legal, Denote, Unparse, Fault;
    NothingIsBlank();
    Alone(t);
    ReadsDocument(lib, "", t, "");
    FaultExactly(lib, t, 0);
  }

  lemma PlusSpelling(s: Spelled, x: string)
    requires Hex3(x, s.code) && s.text == "\\u+" + x
    ensures Spelling(s.text, s.code, false)
  {
    hide HexChar;
    assert s.text[2..][1..] == x && s.text[2..][0] == '+';
  }
}
