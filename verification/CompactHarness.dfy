/**
 The print_int output codec of the compact harnesses: what a harness prints for its vectors, how the validator reads
 it back, and how batches and vector indices line up.
 */
module CompactHarness {
  import opened Common
  import opened Numerals

  // ---------------------------------------------------------------- what a harness prints

  /** `"%02x" % b`. */
  function Hex2(b: byte): string {
    [HexDigit(b / 16), HexDigit(b % 16)]
  }

  function HexString(bs: seq<byte>): string {
    if bs == [] then "" else Hex2(bs[0]) + HexString(bs[1..])
  }

  function HexStrings(vs: seq<seq<byte>>): seq<string> {
    if vs == [] then [] else [HexString(vs[0])] + HexStrings(vs[1..])
  }

  /** `"%08x" % n` for the numbers a harness prints. */
  function Hex8(n: nat): string
    requires n < 0x1000
  {
    "00000" + [HexDigit(n / 256), HexDigit(n / 16 % 16), HexDigit(n % 16)]
  }

  /** One `print_int`, in decimal or as eight hexadecimal digits. */
  function Printed(n: nat, hex: bool): string
    requires n < 0x1000
  {
    if hex then Hex8(n) else Decimal(n)
  }

  /** `print_int(1000 + b)` for every output byte. */
  function PrintBytes(bs: seq<byte>, hex: bool): string {
    if bs == [] then "" else Printed(1000 + (bs[0] as int), hex) + PrintBytes(bs[1..], hex)
  }

  /** The vectors' outputs, each followed by `print_int(999)`. */
  function PrintVectors(vs: seq<seq<byte>>, hex: bool): string {
    if vs == [] then "" else PrintBytes(vs[0], hex) + (Printed(999, hex) + PrintVectors(vs[1..], hex))
  }

  // ---------------------------------------------------------------- reading it back

  /** `str.isspace`. */
  predicate IsSpace(c: char) {
    var n := c as int;
    9 <= n <= 13 || 28 <= n <= 32 || n == 0x85 || n == 0xA0 || n == 0x1680 || 0x2000 <= n <= 0x200A
    || n == 0x2028 || n == 0x2029 || n == 0x202F || n == 0x205F || n == 0x3000
  }

  /** `"".join(text.split())`. */
  function Strip(text: string): string {
    if text == "" then ""
    else if IsSpace(text[0]) then Strip(text[1..])
    else [text[0]] + Strip(text[1..])
  }

  /** The decimal digits outside ASCII, with their values, as the Unicode tables of the interpreter have them. */
  type Decimals = char -> Option<nat>

  function DigitValue(nd: Decimals, c: char, base: nat): Option<nat> {
    var n := c as int;
    if n < 0x80 then
      var v := if 48 <= n <= 57 then n - 48 else if 97 <= n <= 102 then n - 87 else if 65 <= n <= 70 then n - 55 else 16;
      if v < base then Some(v) else None
    else
      match nd(c)
      case Some(v) => if v < 10 && v < base then Some(v) else None
      case None => None
  }

  /** Digits with single underscores between them. */
  function PyDigits(nd: Decimals, s: string, base: nat): Option<nat>
    decreases |s|
  {
    if s == "" then None
    else
      match DigitValue(nd, s[|s| - 1], base)
      case None => None
      case Some(d) =>
        if |s| == 1 then Some(d)
        else
          var init := if s[|s| - 2] == '_' then s[..|s| - 2] else s[..|s| - 1];
          match PyDigits(nd, init, base)
          case Some(n) => Some(n * base + d)
          case None => None
  }

  /** `int(s, base)` on text without white space: an optional sign, for base 16 an optional prefix, then digits. */
  function PyInt(nd: Decimals, s: string, base: nat): Option<int> {
    var negative := s != "" && s[0] == '-';
    var body := if s != "" && (s[0] == '-' || s[0] == '+') then s[1..] else s;
    var prefixed := base == 16 && |body| >= 2 && body[0] == '0' && (body[1] == 'x' || body[1] == 'X');
    var digits := if prefixed then (if |body| >= 3 && body[2] == '_' then body[3..] else body[2..]) else body;
    match PyDigits(nd, digits, base)
    case Some(n) => Some(if negative then -(n as int) else n)
    case None => None
  }

  /** A chunk that stands for an output byte. */
  function ByteChunk(nd: Decimals, chunk: string, base: nat): Option<byte> {
    match PyInt(nd, chunk, base)
    case Some(n) => if 1000 <= n <= 1255 then Some(n - 1000) else None
    case None => None
  }

  predicate LooksHex(nd: Decimals, text: string) {
    |text| >= 8 && text[..4] == "0000" && ByteChunk(nd, text[..8], 16).Some?
  }

  function Final(cur: string, results: seq<string>): seq<string> {
    if cur != "" then results + [cur] else results
  }

  function ScanHex(nd: Decimals, text: string, i: nat, cur: string, results: seq<string>): seq<string>
    decreases |text| - i
  {
    if i + 8 > |text| then Final(cur, results)
    else if text[i..i + 8] == "000003e7" then ScanHex(nd, text, i + 8, "", results + [cur])
    else
      match ByteChunk(nd, text[i..i + 8], 16)
      case Some(b) => ScanHex(nd, text, i + 8, cur + Hex2(b), results)
      case None => ScanHex(nd, text, i + 1, cur, results)
  }

  function ScanDecimal(nd: Decimals, text: string, i: nat, cur: string, results: seq<string>): seq<string>
    decreases |text| - i
  {
    if i >= |text| then Final(cur, results)
    else if i + 3 <= |text| && text[i..i + 3] == "999" then ScanDecimal(nd, text, i + 3, "", results + [cur])
    else if i + 4 <= |text| && ByteChunk(nd, text[i..i + 4], 10).Some? then
      ScanDecimal(nd, text, i + 4, cur + Hex2(ByteChunk(nd, text[i..i + 4], 10).value), results)
    else ScanDecimal(nd, text, i + 1, cur, results)
  }

  function Decoded(nd: Decimals, raw: string): seq<string> {
    var text := Strip(raw);
    if LooksHex(nd, text) then ScanHex(nd, text, 0, "", []) else ScanDecimal(nd, text, 0, "", [])
  }

  /** `parse_output` as it runs. */
  method ParseOutput(nd: Decimals, raw: string) returns (results: seq<string>)
    ensures results == Decoded(nd, raw)
  {
    hide ByteChunk, Strip;
    var text := Strip(raw);
    var isHex := LooksHex(nd, text);
    results := [];
    var cur, i := "", 0;
    if isHex {
      while i + 8 <= |text|
        invariant ScanHex(nd, text, i, cur, results) == ScanHex(nd, text, 0, "", [])
        decreases |text| - i
      {
        var chunk := text[i..i + 8];
        if chunk == "000003e7" {
          results, cur, i := results + [cur], "", i + 8;
          continue;
        }
        var b := ByteChunk(nd, chunk, 16);
        if b.Some? {
          cur, i := cur + Hex2(b.value), i + 8;
          continue;
        }
        i := i + 1;
      }
    } else {
      while i < |text|
        invariant ScanDecimal(nd, text, i, cur, results) == ScanDecimal(nd, text, 0, "", [])
        decreases |text| - i
      {
        if i + 3 <= |text| && text[i..i + 3] == "999" {
          results, cur, i := results + [cur], "", i + 3;
          continue;
        }
        if i + 4 <= |text| {
          var b := ByteChunk(nd, text[i..i + 4], 10);
          if b.Some? {
            cur, i := cur + Hex2(b.value), i + 4;
            continue;
          }
        }
        i := i + 1;
      }
    }
    if cur != "" {
      results := results + [cur];
    }
  }

  // ---------------------------------------------------------------- chunks read back

  lemma ThousandDigits(n: nat)
    requires 1000 <= n <= 1255
    ensures Decimal(n) == ['1', Digit(n / 100 % 10), Digit(n / 10 % 10), Digit(n % 10)]
  {
    assert n / 1000 == 1 && n / 10 / 10 == n / 100 && n / 100 / 10 == 1;
    assert Decimal(1) == ['1'];
    assert Decimal(n / 100) == ['1', Digit(n / 100 % 10)];
    assert Decimal(n / 10) == ['1', Digit(n / 100 % 10), Digit(n / 10 % 10)];
  }

  lemma DigitReads(nd: Decimals, d: nat)
    requires d < 16
    ensures d < 10 ==> DigitValue(nd, Digit(d), 10) == Some(d)
    ensures DigitValue(nd, HexDigit(d), 16) == Some(d) && HexDigit(d) != '_' && HexDigit(d) != 'x' && HexDigit(d) != 'X'
  {
  }

  /** One more plain digit. */
  lemma PyDigitsSnoc(nd: Decimals, s: string, c: char, base: nat, n: nat, d: nat)
    requires s != "" && s[|s| - 1] != '_' && PyDigits(nd, s, base) == Some(n) && DigitValue(nd, c, base) == Some(d)
    ensures PyDigits(nd, s + [c], base) == Some(n * base + d)
  {
    assert (s + [c])[..|s|] == s;
  }

  lemma PlainInt(nd: Decimals, s: string, base: nat, n: nat)
    requires s != "" && s[0] != '-' && s[0] != '+' && (|s| >= 2 ==> s[1] != 'x' && s[1] != 'X')
    requires PyDigits(nd, s, base) == Some(n)
    ensures PyInt(nd, s, base) == Some(n)
  {
    hide PyDigits;
  }

  /** Three digits after a plain start. */
  lemma ThreeMore(nd: Decimals, s: string, base: nat, n: nat, x: char, y: char, z: char, dx: nat, dy: nat, dz: nat)
    requires s != "" && s[|s| - 1] != '_' && x != '_' && y != '_' && PyDigits(nd, s, base) == Some(n)
    requires DigitValue(nd, x, base) == Some(dx) && DigitValue(nd, y, base) == Some(dy) && DigitValue(nd, z, base) == Some(dz)
    ensures PyDigits(nd, s + [x, y, z], base) == Some(((n * base + dx) * base + dy) * base + dz)
  {
    hide PyDigits, DigitValue;
    PyDigitsSnoc(nd, s, x, base, n, dx);
    PyDigitsSnoc(nd, s + [x], y, base, n * base + dx, dy);
    PyDigitsSnoc(nd, s + [x] + [y], z, base, (n * base + dx) * base + dy, dz);
    assert s + [x] + [y] + [z] == s + [x, y, z];
  }

  lemma DecimalChunk(nd: Decimals, b: byte)
    ensures |Decimal(1000 + (b as int))| == 4 && Decimal(1000 + (b as int))[0] == '1'
    ensures ByteChunk(nd, Decimal(1000 + (b as int)), 10) == Some(b)
  {
    hide *;
    var n := 1000 + (b as int);
    ThousandDigits(n);
    var d2, d1, d0 := DigitsOf(n);
    FourDigits(nd, d2, d1, d0);
    ByteOfInt(nd, Decimal(n), 10, b);
  }

  lemma DigitsOf(n: nat) returns (d2: nat, d1: nat, d0: nat)
    requires 1000 <= n <= 1255
    ensures d2 == n / 100 % 10 < 10 && d1 == n / 10 % 10 < 10 && d0 == n % 10 < 10
    ensures n == 1000 + 100 * d2 + 10 * d1 + d0
  {
    d2, d1, d0 := n / 100 % 10, n / 10 % 10, n % 10;
    ThousandValue(n);
  }

  lemma ByteOfInt(nd: Decimals, chunk: string, base: nat, b: byte)
    requires PyInt(nd, chunk, base) == Some(1000 + (b as int))
    ensures ByteChunk(nd, chunk, base) == Some(b)
  {
    hide PyInt;
  }

  /** A one and three digits. */
  lemma FourDigits(nd: Decimals, d2: nat, d1: nat, d0: nat)
    requires d2 < 10 && d1 < 10 && d0 < 10
    ensures PyInt(nd, ['1', Digit(d2), Digit(d1), Digit(d0)], 10) == Some(1000 + 100 * d2 + 10 * d1 + d0)
  {
    hide PyDigits, DigitValue, PyInt;
    DigitReads(nd, d2);
    DigitReads(nd, d1);
    DigitReads(nd, d0);
    One(nd);
    ThreeMore(nd, "1", 10, 1, Digit(d2), Digit(d1), Digit(d0), d2, d1, d0);
    var s := ['1', Digit(d2), Digit(d1), Digit(d0)];
    assert "1" + [Digit(d2), Digit(d1), Digit(d0)] == s;
    PlainInt(nd, s, 10, 1000 + 100 * d2 + 10 * d1 + d0);
  }

  lemma One(nd: Decimals)
    ensures PyDigits(nd, "1", 10) == Some(1)
  {
  }

  lemma Zeros(nd: Decimals)
    ensures PyDigits(nd, "00000", 16) == Some(0)
  {
    assert "00000"[..4] == "0000" && "0000"[..3] == "000" && "000"[..2] == "00" && "00"[..1] == "0";
    assert PyDigits(nd, "0", 16) == Some(0);
    assert PyDigits(nd, "00", 16) == Some(0);
    assert PyDigits(nd, "000", 16) == Some(0);
    assert PyDigits(nd, "0000", 16) == Some(0);
  }

  lemma HexChunk(nd: Decimals, n: nat)
    requires n < 0x1000
    ensures |Hex8(n)| == 8 && Hex8(n)[..4] == "0000"
    ensures PyInt(nd, Hex8(n), 16) == Some(n)
  {
    hide PyDigits, DigitValue, HexDigit, PyInt;
    var d2, d1, d0 := n / 256, n / 16 % 16, n % 16;
    DigitReads(nd, d2);
    DigitReads(nd, d1);
    DigitReads(nd, d0);
    Zeros(nd);
    ThreeMore(nd, "00000", 16, 0, HexDigit(d2), HexDigit(d1), HexDigit(d0), d2, d1, d0);
    assert n == (d2 * 16 + d1) * 16 + d0 by { assert n / 256 == n / 16 / 16; }
    PlainInt(nd, Hex8(n), 16, n);
  }

  /** The eight digits determine the number, so only 999 prints as the delimiter. */
  lemma HexDelimiter(nd: Decimals, n: nat)
    requires n < 0x1000
    ensures Hex8(n) == "000003e7" <==> n == 999
  {
    hide PyInt;
    HexChunk(nd, n);
    HexChunk(nd, 999);
    assert Hex8(999) == "000003e7";
  }

  lemma ThousandValue(n: nat)
    requires 1000 <= n <= 1255
    ensures n == 1000 + 100 * (n / 100 % 10) + 10 * (n / 10 % 10) + n % 10
  {
    var a, b := n / 10, n / 100;
    assert a / 10 == b && b / 10 == 1;
  }

  // ---------------------------------------------------------------- streams read back

  lemma {:induction false} ReadDecimalBytes(nd: Decimals, text: string, i: nat, bs: seq<byte>, tail: string, cur: string,
                                           results: seq<string>)
    requires i <= |text| && text[i..] == PrintBytes(bs, false) + tail
    ensures var j := i + |PrintBytes(bs, false)|;
            j <= |text| && text[j..] == tail
            && ScanDecimal(nd, text, i, cur, results) == ScanDecimal(nd, text, j, cur + HexString(bs), results)
    decreases |bs|
  {
    hide ByteChunk, Decimal, Hex2, ScanDecimal;
    if bs == [] {
      assert cur + "" == cur && "" + tail == tail;
    } else {
      var d, rest := Decimal(1000 + (bs[0] as int)), PrintBytes(bs[1..], false);
      Regroup(d, rest, tail);
      ScanDecimalByte(nd, text, i, bs[0], rest + tail, cur, results);
      ReadDecimalBytes(nd, text, i + 4, bs[1..], tail, cur + Hex2(bs[0]), results);
      Regroup(cur, Hex2(bs[0]), HexString(bs[1..]));
    }
  }

  lemma ScanDecimalByte(nd: Decimals, text: string, i: nat, b: byte, rest: string, cur: string, results: seq<string>)
    requires i <= |text| && text[i..] == Decimal(1000 + (b as int)) + rest
    ensures i + 4 <= |text| && text[i + 4..] == rest && |Decimal(1000 + (b as int))| == 4
    ensures ScanDecimal(nd, text, i, cur, results) == ScanDecimal(nd, text, i + 4, cur + Hex2(b), results)
  {
    hide ByteChunk, Decimal, Hex2;
    var d := Decimal(1000 + (b as int));
    DecimalChunk(nd, b);
    assert text[i..i + 4] == text[i..][..4] == d;
    assert text[i..i + 3][0] == d[0];
    assert text[i + 4..] == text[i..][4..] == rest;
  }

  lemma {:induction false} ReadDecimal(nd: Decimals, text: string, i: nat, vs: seq<seq<byte>>, results: seq<string>)
    requires i <= |text| && text[i..] == PrintVectors(vs, false)
    ensures ScanDecimal(nd, text, i, "", results) == results + HexStrings(vs)
    decreases |vs|
  {
    hide ByteChunk, Hex2, PrintBytes, HexString, ScanDecimal;
    ScanDecimalEnd(nd, text, i, results);
    if vs != [] {
      var rest := PrintVectors(vs[1..], false);
      Nines();
      hide PrintVectors;
      ReadDecimalBytes(nd, text, i, vs[0], "999" + rest, "", results);
      var j := i + |PrintBytes(vs[0], false)|;
      var h := HexString(vs[0]);
      assert "" + h == h;
      ScanDecimalDelimiter(nd, text, j, rest, h, results);
      ReadDecimal(nd, text, j + 3, vs[1..], results + [h]);
      Regroup(results, [h], HexStrings(vs[1..]));
    } else {
      assert results + [] == results;
    }
  }

  lemma ScanDecimalEnd(nd: Decimals, text: string, i: nat, results: seq<string>)
    ensures i <= |text| && text[i..] == "" ==> ScanDecimal(nd, text, i, "", results) == results
  {
  }

  lemma ScanDecimalDelimiter(nd: Decimals, text: string, j: nat, rest: string, cur: string, results: seq<string>)
    requires j <= |text| && text[j..] == "999" + rest
    ensures j + 3 <= |text| && text[j + 3..] == rest
    ensures ScanDecimal(nd, text, j, cur, results) == ScanDecimal(nd, text, j + 3, "", results + [cur])
  {
    hide ByteChunk;
    assert text[j..j + 3] == text[j..][..3] == "999";
    assert text[j + 3..] == text[j..][3..] == rest;
  }

  lemma Nines()
    ensures Decimal(999) == "999"
  {
    assert Decimal(9) == "9";
    assert Decimal(99) == "99";
  }

  lemma {:induction false} ReadHexBytes(nd: Decimals, text: string, i: nat, bs: seq<byte>, tail: string, cur: string, results: seq<string>)
    requires i <= |text| && text[i..] == PrintBytes(bs, true) + tail
    ensures var j := i + |PrintBytes(bs, true)|;
            j <= |text| && text[j..] == tail
            && ScanHex(nd, text, i, cur, results) == ScanHex(nd, text, j, cur + HexString(bs), results)
    decreases |bs|
  {
    hide PyInt, Hex8, Hex2, ScanHex;
    if bs == [] {
      assert cur + "" == cur && "" + tail == tail;
    } else {
      var d, rest := Hex8(1000 + (bs[0] as int)), PrintBytes(bs[1..], true);
      Regroup(d, rest, tail);
      ScanHexByte(nd, text, i, bs[0], rest + tail, cur, results);
      ReadHexBytes(nd, text, i + 8, bs[1..], tail, cur + Hex2(bs[0]), results);
      Regroup(cur, Hex2(bs[0]), HexString(bs[1..]));
    }
  }

  lemma ScanHexByte(nd: Decimals, text: string, i: nat, b: byte, rest: string, cur: string, results: seq<string>)
    requires i <= |text| && text[i..] == Hex8(1000 + (b as int)) + rest
    ensures i + 8 <= |text| && text[i + 8..] == rest
    ensures ScanHex(nd, text, i, cur, results) == ScanHex(nd, text, i + 8, cur + Hex2(b), results)
  {
    hide PyInt, Hex8, Hex2;
    var n := 1000 + (b as int);
    HexChunk(nd, n);
    HexDelimiter(nd, n);
    assert text[i..i + 8] == text[i..][..8] == Hex8(n);
    assert text[i + 8..] == text[i..][8..] == rest;
  }

  lemma {:induction false} ReadHex(nd: Decimals, text: string, i: nat, vs: seq<seq<byte>>, results: seq<string>)
    requires i <= |text| && text[i..] == PrintVectors(vs, true)
    ensures ScanHex(nd, text, i, "", results) == results + HexStrings(vs)
    decreases |vs|
  {
    hide PyInt, Hex2, PrintBytes, HexString, Hex8, ScanHex;
    ScanHexEnd(nd, text, i, results);
    if vs != [] {
      var rest := PrintVectors(vs[1..], true);
      HexDelimiter(nd, 999);
      hide PrintVectors;
      ReadHexBytes(nd, text, i, vs[0], "000003e7" + rest, "", results);
      var j := i + |PrintBytes(vs[0], true)|;
      var h := HexString(vs[0]);
      assert "" + h == h;
      ScanHexDelimiter(nd, text, j, rest, h, results);
      ReadHex(nd, text, j + 8, vs[1..], results + [h]);
      Regroup(results, [h], HexStrings(vs[1..]));
    } else {
      assert results + [] == results;
    }
  }

  lemma ScanHexEnd(nd: Decimals, text: string, i: nat, results: seq<string>)
    ensures i <= |text| && text[i..] == "" ==> ScanHex(nd, text, i, "", results) == results
  {
  }

  lemma ScanHexDelimiter(nd: Decimals, text: string, j: nat, rest: string, cur: string, results: seq<string>)
    requires j <= |text| && text[j..] == "000003e7" + rest
    ensures j + 8 <= |text| && text[j + 8..] == rest
    ensures ScanHex(nd, text, j, cur, results) == ScanHex(nd, text, j + 8, "", results + [cur])
  {
    hide ByteChunk;
    assert text[j..j + 8] == text[j..][..8] == "000003e7";
    assert text[j + 8..] == text[j..][8..] == rest;
  }

  // ---------------------------------------------------------------- which of the two forms the text is taken for

  lemma DecimalIsNotHex(nd: Decimals, vs: seq<seq<byte>>)
    ensures !LooksHex(nd, PrintVectors(vs, false))
  {
    hide ByteChunk, Decimal;
    if vs != [] {
      var text := PrintVectors(vs, false);
      if vs[0] == [] {
        Nines();
        assert text[0] == '9';
      } else {
        DecimalChunk(nd, vs[0][0]);
        assert text[0] == Decimal(1000 + (vs[0][0] as int))[0];
      }
      assert text[0] != '0' && "0000"[0] == '0';
    }
  }

  /** A hexadecimal stream is recognised as such exactly when its first vector has output. */
  lemma HexIsRecognised(nd: Decimals, vs: seq<seq<byte>>)
    ensures LooksHex(nd, PrintVectors(vs, true)) <==> vs != [] && vs[0] != []
  {
    hide PyInt, Hex8;
    if vs != [] {
      var text := PrintVectors(vs, true);
      var n := if vs[0] == [] then 999 else 1000 + (vs[0][0] as int);
      HexChunk(nd, n);
      assert text[..8] == Hex8(n);
      assert text[..4] == text[..8][..4];
    }
  }

  /** Eight-character blocks of five zeros, a digit that is not nine, and two more. */
  predicate Blocks(t: string) {
    |t| % 8 == 0 && forall k :: 0 <= k < |t| && k % 8 < 6 ==> t[k] != '9'
  }

  lemma BlocksConcat(a: string, b: string)
    requires Blocks(a) && Blocks(b)
    ensures Blocks(a + b)
  {
    forall k | 0 <= k < |a + b| && k % 8 < 6 ensures (a + b)[k] != '9' {
      if k >= |a| {
        assert (k - |a|) % 8 == k % 8;
      }
    }
  }

  lemma {:induction false} BytesAreBlocks(bs: seq<byte>)
    ensures Blocks(PrintBytes(bs, true))
  {
    hide Blocks;
    if bs != [] {
      BytesAreBlocks(bs[1..]);
      OneBlock(1000 + (bs[0] as int));
      BlocksConcat(Hex8(1000 + (bs[0] as int)), PrintBytes(bs[1..], true));
    } else {
      NoBlocks();
    }
  }

  lemma {:induction false} VectorsAreBlocks(vs: seq<seq<byte>>)
    ensures Blocks(PrintVectors(vs, true))
  {
    hide Blocks, PrintBytes, Hex8;
    if vs != [] {
      VectorsAreBlocks(vs[1..]);
      BytesAreBlocks(vs[0]);
      OneBlock(999);
      BlocksConcat(Hex8(999), PrintVectors(vs[1..], true));
      BlocksConcat(PrintBytes(vs[0], true), Hex8(999) + PrintVectors(vs[1..], true));
    } else {
      NoBlocks();
    }
  }

  lemma NoBlocks()
    ensures Blocks("")
  {
  }

  lemma OneBlock(n: nat)
    requires 999 <= n <= 1255
    ensures Blocks(Hex8(n))
  {
  }

  lemma NoTripleNine(t: string, k: nat)
    requires Blocks(t) && k + 3 <= |t|
    ensures t[k..k + 3] != "999"
  {
    var j := if k % 8 < 6 then 0 else if k % 8 == 6 then 2 else 1;
    assert (k + j) % 8 < 6;
    assert t[k..k + 3][j] == t[k + j];
  }

  /** Read as decimal, such a text never ends a vector, so no empty string can come out. */
  lemma {:induction false} NoDelimiter(nd: Decimals, text: string, i: nat, cur: string)
    requires Blocks(text)
    ensures var r := ScanDecimal(nd, text, i, cur, []); r == [] || (|r| == 1 && r[0] != "")
    decreases |text| - i
  {
    hide ByteChunk, Blocks;
    if i < |text| {
      if i + 3 <= |text| {
        NoTripleNine(text, i);
      }
      if i + 4 <= |text| && ByteChunk(nd, text[i..i + 4], 10).Some? {
        NoDelimiter(nd, text, i + 4, cur + Hex2(ByteChunk(nd, text[i..i + 4], 10).value));
      } else {
        NoDelimiter(nd, text, i + 1, cur);
      }
    }
  }

  // ---------------------------------------------------------------- the codec

  /** The decoder recovers every list of outputs from the decimal stream, whatever white space is between its characters. */
  lemma DecimalDecodes(nd: Decimals, raw: string, vs: seq<seq<byte>>)
    requires Strip(raw) == PrintVectors(vs, false)
    ensures Decoded(nd, raw) == HexStrings(vs)
  {
    hide ScanDecimal, ScanHex, LooksHex, Strip;
    DecimalIsNotHex(nd, vs);
    var text := Strip(raw);
    assert text[0..] == text;
    ReadDecimal(nd, text, 0, vs, []);
    assert [] + HexStrings(vs) == HexStrings(vs);
  }

  /** From the hexadecimal stream it does so exactly when there is no vector or the first vector has output. */
  lemma HexDecodes(nd: Decimals, raw: string, vs: seq<seq<byte>>)
    requires Strip(raw) == PrintVectors(vs, true)
    ensures Decoded(nd, raw) == HexStrings(vs) <==> vs == [] || vs[0] != []
  {
    hide ScanHex, LooksHex, Strip, ByteChunk;
    HexIsRecognised(nd, vs);
    var text := Strip(raw);
    if vs == [] {
      assert ScanDecimal(nd, text, 0, "", []) == [];
    } else if vs[0] != [] {
      assert text[0..] == text;
      ReadHex(nd, text, 0, vs, []);
      assert [] + HexStrings(vs) == HexStrings(vs);
    } else {
      hide ScanDecimal;
      VectorsAreBlocks(vs);
      NoDelimiter(nd, text, 0, "");
      assert HexStrings(vs)[0] == "";
    }
  }

  // ---------------------------------------------------------------- streams with noise

  /** What a stream consists of: an output byte, the end of a vector, or a character that belongs to neither. */
  datatype Piece = Output(b: byte) | EndOfVector | Noise(c: char)

  function PieceText(p: Piece, hex: bool): string {
    match p
    case Output(b) => Printed(1000 + (b as int), hex)
    case EndOfVector => Printed(999, hex)
    case Noise(c) => [c]
  }

  function StreamText(ps: seq<Piece>, hex: bool): string {
    if ps == [] then "" else PieceText(ps[0], hex) + StreamText(ps[1..], hex)
  }

  /** Neither a digit nor a sign. */
  predicate Harmless(nd: Decimals, c: char, base: nat) {
    c != '+' && c != '-' && DigitValue(nd, c, base) == None
  }

  predicate HarmlessNoise(nd: Decimals, ps: seq<Piece>, base: nat) {
    forall k :: 0 <= k < |ps| && ps[k].Noise? ==> Harmless(nd, ps[k].c, base)
  }

  /** The outputs of the vectors, two hexadecimal digits a byte; what follows the last end counts when there is something. */
  function StreamOutputs(ps: seq<Piece>, cur: string): seq<string> {
    if ps == [] then (if cur == "" then [] else [cur])
    else
      match ps[0]
      case Output(b) =>
        StreamOutputs(ps[1..], cur + ["0123456789abcdef"[b / 16], "0123456789abcdef"[b % 16]])
      case EndOfVector => [cur] + StreamOutputs(ps[1..], "")
      case Noise(_) => StreamOutputs(ps[1..], cur)
  }

  lemma {:induction false} DigitsStart(nd: Decimals, s: string, base: nat)
    requires PyDigits(nd, s, base).Some?
    ensures s != "" && DigitValue(nd, s[0], base).Some?
    decreases |s|
  {
    hide DigitValue;
    if |s| > 1 {
      var init := if s[|s| - 2] == '_' then s[..|s| - 2] else s[..|s| - 1];
      DigitsStart(nd, init, base);
      assert init[0] == s[0];
    }
  }

  lemma ZeroIsDigit(nd: Decimals, base: nat)
    requires base >= 10
    ensures DigitValue(nd, '0', base) == Some(0)
  {
  }

  lemma NoByteAtNoise(nd: Decimals, chunk: string, base: nat)
    requires base >= 10 && chunk != "" && Harmless(nd, chunk[0], base)
    ensures ByteChunk(nd, chunk, base) == None
  {
    hide PyDigits, DigitValue;
    ZeroIsDigit(nd, base);
    if PyDigits(nd, chunk, base).Some? {
      DigitsStart(nd, chunk, base);
    }
  }

  lemma Hex2Digits(b: byte)
    ensures Hex2(b) == ["0123456789abcdef"[b / 16], "0123456789abcdef"[b % 16]]
  {
  }

  lemma NoiseDecimal(nd: Decimals, text: string, i: nat, c: char, cur: string, results: seq<string>)
    requires i < |text| && text[i] == c && Harmless(nd, c, 10)
    ensures ScanDecimal(nd, text, i, cur, results) == ScanDecimal(nd, text, i + 1, cur, results)
  {
    assert c != '9' by { NineIsDigit(nd); }
    assert i + 3 <= |text| ==> text[i..i + 3][0] == c;
    if i + 4 <= |text| {
      assert text[i..i + 4][0] == c;
      NoByteAtNoise(nd, text[i..i + 4], 10);
    }
    hide ByteChunk, Harmless;
  }

  lemma NineIsDigit(nd: Decimals)
    ensures DigitValue(nd, '9', 10) == Some(9)
  {
  }

  lemma NoiseHex(nd: Decimals, text: string, i: nat, c: char, cur: string, results: seq<string>)
    requires i + 8 <= |text| && text[i] == c && Harmless(nd, c, 16)
    ensures ScanHex(nd, text, i, cur, results) == ScanHex(nd, text, i + 1, cur, results)
  {
    assert c != '0' by { ZeroIsDigit(nd, 16); }
    assert text[i..i + 8][0] == c;
    NoByteAtNoise(nd, text[i..i + 8], 16);
    hide ByteChunk, Harmless;
  }

  /** In a decimal stream noise is passed over character by character, wherever it stands. */
  lemma {:induction false} DecimalStream(nd: Decimals, text: string, i: nat, ps: seq<Piece>, cur: string, results: seq<string>)
    requires i <= |text| && text[i..] == StreamText(ps, false) && HarmlessNoise(nd, ps, 10)
    ensures ScanDecimal(nd, text, i, cur, results) == results + StreamOutputs(ps, cur)
    decreases |ps|
  {
    hide ByteChunk, Decimal, ScanDecimal, Harmless, Hex2;
    if ps == [] {
      DecimalEnd(nd, text, i, cur, results);
    } else {
      var rest := ps[1..];
      assert HarmlessNoise(nd, rest, 10) by { assert forall k :: 0 <= k < |rest| ==> rest[k] == ps[k + 1]; }
      match ps[0]
      case Output(b) =>
        ScanDecimalByte(nd, text, i, b, StreamText(rest, false), cur, results);
        Hex2Digits(b);
        DecimalStream(nd, text, i + 4, rest, cur + Hex2(b), results);
      case EndOfVector =>
        Nines();
        ScanDecimalDelimiter(nd, text, i, StreamText(rest, false), cur, results);
        DecimalStream(nd, text, i + 3, rest, "", results + [cur]);
        Regroup(results, [cur], StreamOutputs(rest, ""));
      case Noise(c) =>
        assert text[i] == text[i..][0] == c && text[i + 1..] == text[i..][1..];
        NoiseDecimal(nd, text, i, c, cur, results);
        DecimalStream(nd, text, i + 1, rest, cur, results);
    }
  }

  lemma DecimalEnd(nd: Decimals, text: string, i: nat, cur: string, results: seq<string>)
    requires i <= |text| && text[i..] == ""
    ensures ScanDecimal(nd, text, i, cur, results) == results + (if cur == "" then [] else [cur])
  {
    assert results + [] == results;
  }

  lemma {:induction false} ShortStream(ps: seq<Piece>, cur: string)
    requires |StreamText(ps, true)| < 8
    ensures StreamOutputs(ps, cur) == if cur == "" then [] else [cur]
    decreases |ps|
  {
    hide Hex8;
    if ps != [] {
      assert ps[0].Noise? by { assert !ps[0].Noise? ==> |PieceText(ps[0], true)| == 8 by { EightLong(ps[0]); } }
      ShortStream(ps[1..], cur);
    }
  }

  lemma EightLong(p: Piece)
    ensures !p.Noise? ==> |PieceText(p, true)| == 8
  {
  }

  lemma {:induction false} HexStream(nd: Decimals, text: string, i: nat, ps: seq<Piece>, cur: string, results: seq<string>)
    requires i <= |text| && text[i..] == StreamText(ps, true) && HarmlessNoise(nd, ps, 16)
    ensures ScanHex(nd, text, i, cur, results) == results + StreamOutputs(ps, cur)
    decreases |ps|
  {
    hide ByteChunk, Hex8, ScanHex, Harmless, Hex2;
    if i + 8 > |text| {
      ShortStream(ps, cur);
      HexEnd(nd, text, i, cur, results);
    } else {
      assert ps != [];
      var rest := ps[1..];
      assert HarmlessNoise(nd, rest, 16) by { assert forall k :: 0 <= k < |rest| ==> rest[k] == ps[k + 1]; }
      match ps[0]
      case Output(b) =>
        ScanHexByte(nd, text, i, b, StreamText(rest, true), cur, results);
        Hex2Digits(b);
        HexStream(nd, text, i + 8, rest, cur + Hex2(b), results);
      case EndOfVector =>
        HexDelimiter(nd, 999);
        ScanHexDelimiter(nd, text, i, StreamText(rest, true), cur, results);
        HexStream(nd, text, i + 8, rest, "", results + [cur]);
        Regroup(results, [cur], StreamOutputs(rest, ""));
      case Noise(c) =>
        assert text[i] == text[i..][0] == c && text[i + 1..] == text[i..][1..];
        NoiseHex(nd, text, i, c, cur, results);
        HexStream(nd, text, i + 1, rest, cur, results);
    }
  }

  lemma HexEnd(nd: Decimals, text: string, i: nat, cur: string, results: seq<string>)
    requires i + 8 > |text|
    ensures ScanHex(nd, text, i, cur, results) == results + (if cur == "" then [] else [cur])
  {
    assert results + [] == results;
  }

  /** The first piece decides which form a stream is taken for. */
  lemma StreamForm(nd: Decimals, ps: seq<Piece>)
    ensures HarmlessNoise(nd, ps, 10) ==> !LooksHex(nd, StreamText(ps, false))
    ensures ps != [] && ps[0].Output? ==> LooksHex(nd, StreamText(ps, true))
  {
    hide PyInt, Decimal, Hex8, DigitValue;
    if ps != [] {
      match ps[0]
      case Output(b) =>
        DecimalChunk(nd, b);
        assert StreamText(ps, false)[0] == Decimal(1000 + (b as int))[0];
        HexChunk(nd, 1000 + (b as int));
        var text := StreamText(ps, true);
        assert text[..8] == Hex8(1000 + (b as int)) && text[..4] == text[..8][..4];
      case EndOfVector =>
        Nines();
        assert StreamText(ps, false)[0] == '9';
      case Noise(c) =>
        ZeroIsDigit(nd, 10);
        assert StreamText(ps, false)[0] == c;
    }
    assert "0000"[0] == '0';
  }

  /**
   Whatever stands between the numbers, as long as it is neither a digit nor a sign, is passed over: a decimal stream decodes
   to the outputs it carries, and so does a hexadecimal one that starts with an output byte.
   */
  lemma NoiseDecodes(nd: Decimals, raw: string, ps: seq<Piece>, hex: bool)
    requires Strip(raw) == StreamText(ps, hex) && HarmlessNoise(nd, ps, if hex then 16 else 10)
    requires hex ==> ps != [] && ps[0].Output?
    ensures Decoded(nd, raw) == StreamOutputs(ps, "")
  {
    hide Strip, LooksHex, ScanHex, ScanDecimal, StreamText, StreamOutputs, HarmlessNoise;
    StreamForm(nd, ps);
    var text := Strip(raw);
    assert text[0..] == text;
    NothingAndMore(StreamOutputs(ps, ""));
    if hex {
      HexStream(nd, text, 0, ps, "", []);
    } else {
      DecimalStream(nd, text, 0, ps, "", []);
    }
  }

  // ---------------------------------------------------------------- white space, and integers as the interpreter reads them

  lemma {:induction false} StripConcat(a: string, b: string)
    ensures Strip(a + b) == Strip(a) + Strip(b)
    decreases |a|
  {
    hide IsSpace;
    if a == "" {
      assert a + b == b && "" + Strip(b) == Strip(b);
    } else {
      FirstOfConcat(a, b);
      StripConcat(a[1..], b);
    }
  }

  /** Tabs, line ends, the separators and spaces go; every other ASCII character stays. */
  lemma StripAscii(c: char)
    requires c as int < 0x80
    ensures c in "\t\n\r " || c as int in {11, 12, 28, 29, 30, 31} ==> Strip([c]) == ""
    ensures c !in "\t\n\r " && c as int !in {11, 12, 28, 29, 30, 31} ==> Strip([c]) == [c]
  {
    assert [c][1..] == "";
  }

  /** A sign, and for base 16 a prefix, before digits. */
  lemma SignsAndPrefix(nd: Decimals, s: string, base: nat, n: nat)
    requires PyDigits(nd, s, base) == Some(n) && s[0] != '-' && s[0] != '+' && (|s| >= 2 ==> s[1] != 'x' && s[1] != 'X')
    ensures PyInt(nd, s, base) == PyInt(nd, "+" + s, base) == Some(n) && PyInt(nd, "-" + s, base) == Some(-(n as int))
    ensures base == 16 && s[0] != '_' ==> PyInt(nd, "0x" + s, 16) == PyInt(nd, "0X" + s, 16) == Some(n)
  {
    hide PyDigits;
    assert ("+" + s)[1..] == s && ("-" + s)[1..] == s && ("0x" + s)[2..] == s && ("0X" + s)[2..] == s;
  }

  /** One underscore between digits is ignored; anywhere else it makes the text no number. */
  lemma Underscores(nd: Decimals, s: string, c: char, base: nat)
    requires DigitValue(nd, '_', base) == None
    ensures s != "" && s[|s| - 1] != '_' ==> PyDigits(nd, s + ['_', c], base) == PyDigits(nd, s + [c], base)
    ensures PyDigits(nd, s + "_", base) == None && PyDigits(nd, s + "__" + [c], base) == None
  {
    hide DigitValue;
    assert (s + ['_', c])[..|s|] == s && (s + [c])[..|s|] == s;
    assert (s + "__" + [c])[..|s| + 1] == s + "_";
  }
}
