/** What stands where the parser reports an error, for every text it refuses. */
module JsonErrors {
  import opened Common
  import opened JsonValue
  import opened JsonPrint
  import opened JsonGrammar
  import JsonSoundness
  import Utf8

  // ---------------------------------------------------------------- what an error says

  predicate At(b: seq<byte>, i: int, x: int) { 0 <= i < |b| && b[i] as int == x }

  /** A backslash and a `u` before position `i`. */
  predicate AfterEscape(b: seq<byte>, i: int) { At(b, i - 2, 0x5C) && At(b, i - 1, 0x75) }

  /** The four bytes before position `i` are the digits of an escape, and this is their number. */
  predicate Escaped16(b: seq<byte>, i: int, n: nat) {
    4 <= i <= |b| && AfterEscape(b, i - 4) && HexCode(b[i - 4..i]) == Some(n)
  }

  /** An escape whose number lies in this range ends at position `i`. */
  ghost predicate AfterNumber(b: seq<byte>, i: int, lo: nat, hi: nat) {
    exists n: nat :: Escaped16(b, i, n) && lo <= n <= hi
  }

  predicate DigitAt(b: seq<byte>, i: int) { 0 <= i < |b| && 48 <= b[i] <= 57 }

  predicate SpaceAt(b: seq<byte>, i: int) { At(b, i, 0x20) || At(b, i, 9) || At(b, i, 10) || At(b, i, 13) }

  /** Positions of opening brackets, in order, before `i`. */
  predicate Openings(b: seq<byte>, ks: seq<nat>, i: nat) {
    && (forall x :: 0 <= x < |ks| ==> ks[x] < i && (At(b, ks[x], 0x5B) || At(b, ks[x], 0x7B)))
    && (forall x, y :: 0 <= x < y < |ks| ==> ks[x] < ks[y])
  }

  ghost predicate Opened(b: seq<byte>, n: nat, i: nat) {
    exists ks :: |ks| == n && Openings(b, ks, i)
  }

  /** The word that starts at `i`, when its first letter is that of a literal. */
  predicate LiteralStart(b: seq<byte>, i: nat, w: seq<byte>) {
    || (w == [0x74, 0x72, 0x75, 0x65] && At(b, i, 0x74))
    || (w == [0x66, 0x61, 0x6C, 0x73, 0x65] && At(b, i, 0x66))
    || (w == [0x6E, 0x75, 0x6C, 0x6C] && At(b, i, 0x6E))
  }

  /** A literal starts and the text is too short for it. */
  ghost predicate LiteralCut(b: seq<byte>, i: nat) {
    exists w :: LiteralStart(b, i, w) && i + |w| > |b|
  }

  /** A literal starts and goes on as something else. */
  ghost predicate LiteralBroken(b: seq<byte>, i: nat) {
    exists w :: LiteralStart(b, i, w) && i + |w| <= |b| && b[i..i + |w|] != w
  }

  /** A number that ends at `end` and has no value. */
  ghost predicate NoNumber(lib: FloatLib, b: seq<byte>, start: nat, end: nat) {
    && start < end <= |b| && (At(b, start, 0x2D) || DigitAt(b, start)) && NumberEnd(b, start) == end
    && match Utf8.Decode(b[start..end])
       case Some(t) => LexemeValue(lib, t, end > IntegerEnd(b, start)) == None
       case None => false
  }

  /** The letters that may follow a backslash. */
  predicate EscapeLetter(x: byte) {
    x == 0x22 || x == 0x5C || x == 0x2F || x == 0x62 || x == 0x66 || x == 0x6E || x == 0x72 || x == 0x74 || x == 0x75
  }

  /** What each kind of error says about the text around its position. */
  ghost predicate Shows(lib: FloatLib, b: seq<byte>, e: JsonError) {
    var p := e.pos;
    match e.kind
    case DepthExceeded => Opened(b, 513, p)
    case ValueAtEnd => p == |b|
    case UnexpectedCharacter =>
      && p < |b| && !SpaceAt(b, p) && !DigitAt(b, p) && b[p] !in [0x7B, 0x5B, 0x22, 0x74, 0x66, 0x6E, 0x2D]
    case ExpectedAtEnd(c) => p == |b| && (c == '\"' || c == ':')
    case Expected(c) => p < |b| && b[p] != c as int && !SpaceAt(b, p) && (c == '\"' || c == ':')
    case LiteralAtEnd => LiteralCut(b, p)
    case BadLiteral => LiteralBroken(b, p)
    case ObjectSeparator => !SpaceAt(b, p) && !At(b, p, 0x2C) && !At(b, p, 0x7D)
    case ArraySeparator => !SpaceAt(b, p) && !At(b, p, 0x2C) && !At(b, p, 0x5D)
    case UnterminatedString => p == |b|
    case RawControl => 1 <= p <= |b| && b[p - 1] < 0x20
    case TrailingBackslash => p == |b| && At(b, p - 1, 0x5C)
    case BadEscape => 2 <= p <= |b| && b[p - 2] == 0x5C && !EscapeLetter(b[p - 1])
    case TruncatedHex => AfterEscape(b, p) && p + 4 > |b|
    case HexNotUtf8 => AfterEscape(b, p) && p + 4 <= |b| && !Utf8.Valid(b[p..p + 4])
    case BadHex => AfterEscape(b, p) && p + 4 <= |b| && HexCode(b[p..p + 4]) == None
    case ExpectedLowSurrogate =>
      && AfterNumber(b, p, 0xD800, 0xDBFF)
      && (p + 6 > |b| || !AfterEscape(b, p + 2))
    case LowHexNotUtf8 =>
      && AfterNumber(b, p, 0xD800, 0xDBFF)
      && p + 6 <= |b| && AfterEscape(b, p + 2) && !Utf8.Valid(b[p + 2..p + 6])
    case BadLowHex =>
      && AfterNumber(b, p, 0xD800, 0xDBFF)
      && p + 6 <= |b| && AfterEscape(b, p + 2) && HexCode(b[p + 2..p + 6]) == None
    case BadLowSurrogate =>
      && AfterNumber(b, p, 0xD800, 0xDBFF)
      && (AfterNumber(b, p + 6, 0, 0xDBFF) || AfterNumber(b, p + 6, 0xE000, 0xFFFF))
    case LoneLowSurrogate => AfterNumber(b, p, 0xDC00, 0xDFFF)
    case BadNumber => exists start :: NoNumber(lib, b, start, p)
    case TrailingCharacters => p < |b| && !SpaceAt(b, p)
    case _ => JsonSoundness.Impossible(e.kind)
  }

  // ---------------------------------------------------------------- strings

  lemma SkipStops(b: seq<byte>, i: nat)
    requires i <= |b|
    ensures i <= SkipSpace(b, i) <= |b| && !SpaceAt(b, SkipSpace(b, i))
  {
  }

  lemma LowSurrogateShows(lib: FloatLib, b: seq<byte>, j: nat, hi: nat)
    requires Escaped16(b, j, hi) && 0xD800 <= hi <= 0xDBFF
    ensures LowSurrogate(b, j, hi).Err? ==> Shows(lib, b, LowSurrogate(b, j, hi).error)
  {
    hide HexCode, Utf8.Valid, CharFromU32, Combine, Utf8.EncodeChar;
    if j + 6 <= |b| && b[j] == '\\' as int && b[j + 1] == 'u' as int && HexCode(b[j + 2..j + 6]).Some? {
      assert b[j + 6 - 4..j + 6] == b[j + 2..j + 6];
      JsonSoundness.HexCodeBound(b[j + 2..j + 6]);
      assert Escaped16(b, j + 6, HexCode(b[j + 2..j + 6]).value);
    }
  }

  lemma UnicodeShows(lib: FloatLib, b: seq<byte>, i: nat)
    requires i <= |b| && AfterEscape(b, i)
    ensures UnicodeEscape(b, i).Err? ==> Shows(lib, b, UnicodeEscape(b, i).error)
  {
    hide HexCode, Utf8.Valid, CharFromU32, LowSurrogate, Utf8.EncodeChar;
    if i + 4 <= |b| && HexCode(b[i..i + 4]).Some? {
      var n := HexCode(b[i..i + 4]).value;
      assert b[i + 4 - 4..i + 4] == b[i..i + 4];
      assert Escaped16(b, i + 4, n);
      if 0xD800 <= n <= 0xDBFF {
        LowSurrogateShows(lib, b, i + 4, n);
      }
    }
  }

  lemma EscapeShows(lib: FloatLib, b: seq<byte>, i: nat)
    requires 1 <= i <= |b| && At(b, i - 1, 0x5C)
    ensures EscapeSequence(b, i).Err? ==> Shows(lib, b, EscapeSequence(b, i).error)
  {
    hide UnicodeEscape;
    if i < |b| && b[i] == 'u' as int {
      UnicodeShows(lib, b, i + 1);
    }
  }

  lemma {:induction false} BodyShows(lib: FloatLib, b: seq<byte>, i: nat, out: seq<byte>)
    requires i <= |b|
    ensures StringBody(b, i, out).Err? ==> Shows(lib, b, StringBody(b, i, out).error)
    decreases |b| - i
  {
    hide EscapeSequence, Utf8.Decode;
    if i < |b| && b[i] != '\"' as int {
      if b[i] == '\\' as int {
        EscapeShows(lib, b, i + 1);
        if EscapeSequence(b, i + 1).Ok? {
          BodyShows(lib, b, EscapeSequence(b, i + 1).next, out + EscapeSequence(b, i + 1).value);
        }
      } else if b[i] >= 0x20 {
        BodyShows(lib, b, i + 1, out + [b[i]]);
      }
    }
  }

  lemma StringShows(lib: FloatLib, b: seq<byte>, i: nat)
    requires i <= |b| && !SpaceAt(b, i)
    ensures StringAt(b, i).Err? ==> Shows(lib, b, StringAt(b, i).error)
  {
    hide StringBody;
    if At(b, i, 0x22) {
      BodyShows(lib, b, i + 1, []);
    }
  }

  // ---------------------------------------------------------------- scalars

  lemma LiteralShows(lib: FloatLib, b: seq<byte>, i: nat, w: seq<byte>, v: Json)
    requires i <= |b| && LiteralStart(b, i, w)
    ensures Literal(b, i, w, v).Err? ==> Shows(lib, b, Literal(b, i, w, v).error)
  {
    hide LiteralStart;
    assert i + |w| > |b| ==> LiteralCut(b, i);
    assert i + |w| <= |b| && b[i..i + |w|] != w ==> LiteralBroken(b, i);
    hide LiteralCut, LiteralBroken;
  }

  lemma NumberShows(lib: FloatLib, b: seq<byte>, i: nat)
    requires i <= |b| && (At(b, i, 0x2D) || DigitAt(b, i))
    ensures NumberAt(lib, b, i).Err? ==> Shows(lib, b, NumberAt(lib, b, i).error)
  {
    NumberGoesOn(b, i);
    hide NumberEnd, IntegerEnd, LexemeValue, Utf8.Decode;
    var e := NumberAt(lib, b, i);
    if e.Err? && e.error.kind == BadNumber {
      assert NoNumber(lib, b, i, e.error.pos);
    }
  }

  lemma NumberGoesOn(b: seq<byte>, i: nat)
    requires i <= |b| && (At(b, i, 0x2D) || DigitAt(b, i))
    ensures i < NumberEnd(b, i) <= |b|
  {
    var j := IntegerEnd(b, i);
    assert i < j by { IntegerGoesOn(b, i); }
    hide IntegerEnd, FractionEnd, ExponentEnd;
  }

  lemma IntegerGoesOn(b: seq<byte>, i: nat)
    requires i <= |b| && (At(b, i, 0x2D) || DigitAt(b, i))
    ensures i < IntegerEnd(b, i)
  {
    if !At(b, i, 0x2D) && !At(b, i, 0x30) {
      assert IsDigit(b[i]);
      assert SkipDigits(b, i) == SkipDigits(b, i + 1);
    }
  }

  // ---------------------------------------------------------------- containers

  lemma OpenedMore(b: seq<byte>, n: nat, i: nat)
    requires Opened(b, n, i) && (At(b, i, 0x5B) || At(b, i, 0x7B))
    ensures Opened(b, n + 1, i + 1)
  {
    var ks :| |ks| == n && Openings(b, ks, i);
    assert Openings(b, ks + [i], i + 1);
  }

  lemma OpenedLater(b: seq<byte>, n: nat, i: nat, j: nat)
    requires Opened(b, n, i) && i <= j
    ensures Opened(b, n, j)
  {
    var ks :| |ks| == n && Openings(b, ks, i);
    assert Openings(b, ks, j);
  }

  lemma {:induction false} ValueShows(lib: FloatLib, b: seq<byte>, i: nat, d: nat)
    requires i <= |b| && Opened(b, d, i) && d <= 513
    ensures ValueAt(lib, b, i, d).Err? ==> Shows(lib, b, ValueAt(lib, b, i, d).error)
    decreases |b| - i, 2
  {
    hide Opened, ObjectAt, ArrayAt, StringAt, NumberAt, Literal, SkipSpace;
    if d <= 512 {
      var j := SkipSpace(b, i);
      SkipStops(b, i);
      OpenedLater(b, d, i, j);
      if j < |b| {
        if b[j] == '{' as int {
          ObjectShows(lib, b, j, d);
        } else if b[j] == '[' as int {
          ArrayShows(lib, b, j, d);
        } else if b[j] == '\"' as int {
          StringShows(lib, b, j);
        } else if b[j] == 't' as int {
          LiteralShows(lib, b, j, TRUE_TEXT, Bool(true));
        } else if b[j] == 'f' as int {
          LiteralShows(lib, b, j, FALSE_TEXT, Bool(false));
        } else if b[j] == 'n' as int {
          LiteralShows(lib, b, j, NULL_TEXT, Null);
        } else if b[j] == '-' as int || IsDigit(b[j]) {
          NumberShows(lib, b, j);
        }
      }
    }
  }

  lemma {:induction false} ArrayShows(lib: FloatLib, b: seq<byte>, i: nat, d: nat)
    requires i < |b| && At(b, i, 0x5B) && Opened(b, d, i) && d <= 512
    ensures ArrayAt(lib, b, i, d).Err? ==> Shows(lib, b, ArrayAt(lib, b, i, d).error)
    decreases |b| - i, 1
  {
    hide Opened, ItemsAt, SkipSpace;
    var j := SkipSpace(b, i + 1);
    SkipStops(b, i + 1);
    OpenedMore(b, d, i);
    OpenedLater(b, d + 1, i + 1, j);
    if !Sees(b, j, ']') {
      ItemsShow(lib, b, j, d);
    }
  }

  lemma {:induction false} ItemsShow(lib: FloatLib, b: seq<byte>, i: nat, d: nat)
    requires i <= |b| && Opened(b, d + 1, i) && d <= 512
    ensures ItemsAt(lib, b, i, d).Err? ==> Shows(lib, b, ItemsAt(lib, b, i, d).error)
    decreases |b| - i, 3
  {
    hide Opened, ValueAt, SkipSpace, Shows;
    ValueShows(lib, b, i, d + 1);
    if ValueAt(lib, b, i, d + 1).Ok? {
      var after := ValueAt(lib, b, i, d + 1).next;
      var k := SkipSpace(b, after);
      SkipStops(b, after);
      if Sees(b, k, ',') {
        var m := SkipSpace(b, k + 1);
        SkipStops(b, k + 1);
        if !Sees(b, m, ']') {
          OpenedLater(b, d + 1, i, m);
          ItemsShow(lib, b, m, d);
        }
      } else if !Sees(b, k, ']') {
        SeparatorShows(lib, b, k);
      }
    }
  }

  lemma SeparatorShows(lib: FloatLib, b: seq<byte>, k: nat)
    requires !SpaceAt(b, k) && !Sees(b, k, ',')
    ensures !Sees(b, k, ']') ==> Shows(lib, b, JsonError(k, ArraySeparator))
    ensures !Sees(b, k, '}') ==> Shows(lib, b, JsonError(k, ObjectSeparator))
  {
  }

  lemma {:induction false} ObjectShows(lib: FloatLib, b: seq<byte>, i: nat, d: nat)
    requires i < |b| && At(b, i, 0x7B) && Opened(b, d, i) && d <= 512
    ensures ObjectAt(lib, b, i, d).Err? ==> Shows(lib, b, ObjectAt(lib, b, i, d).error)
    decreases |b| - i, 1
  {
    hide Opened, MembersAt, SkipSpace, Fold;
    var j := SkipSpace(b, i + 1);
    SkipStops(b, i + 1);
    OpenedMore(b, d, i);
    OpenedLater(b, d + 1, i + 1, j);
    if !Sees(b, j, '}') {
      MembersShow(lib, b, j, d);
    }
  }

  lemma ColonShows(lib: FloatLib, b: seq<byte>, k: nat)
    requires k <= |b| && !SpaceAt(b, k)
    ensures Expect(b, k, ':').Err? ==> Shows(lib, b, Expect(b, k, ':').error)
  {
  }

  lemma {:induction false} MemberShows(lib: FloatLib, b: seq<byte>, i: nat, d: nat)
    requires i <= |b| && Opened(b, d + 1, i) && d <= 512
    ensures MemberAt(lib, b, i, d).Err? ==> Shows(lib, b, MemberAt(lib, b, i, d).error)
    decreases |b| - i, 0
  {
    hide Opened, ValueAt, SkipSpace, Shows, StringAt;
    var j := SkipSpace(b, i);
    SkipStops(b, i);
    StringShows(lib, b, j);
    if StringAt(b, j).Ok? {
      var k := SkipSpace(b, StringAt(b, j).next);
      SkipStops(b, StringAt(b, j).next);
      ColonShows(lib, b, k);
      if Expect(b, k, ':').Ok? {
        OpenedLater(b, d + 1, i, k + 1);
        ValueShows(lib, b, k + 1, d + 1);
      }
    }
  }

  lemma {:induction false} MembersShow(lib: FloatLib, b: seq<byte>, i: nat, d: nat)
    requires i <= |b| && Opened(b, d + 1, i) && d <= 512
    ensures MembersAt(lib, b, i, d).Err? ==> Shows(lib, b, MembersAt(lib, b, i, d).error)
    decreases |b| - i, 3
  {
    hide Opened, MemberAt, SkipSpace, Shows;
    MemberShows(lib, b, i, d);
    if MemberAt(lib, b, i, d).Ok? {
      var after := MemberAt(lib, b, i, d).next;
      var k := SkipSpace(b, after);
      SkipStops(b, after);
      if Sees(b, k, ',') {
        var m := SkipSpace(b, k + 1);
        SkipStops(b, k + 1);
        if !Sees(b, m, '}') {
          OpenedLater(b, d + 1, i, m);
          MembersShow(lib, b, m, d);
        }
      } else if !Sees(b, k, '}') {
        SeparatorShows(lib, b, k);
      }
    }
  }

  /** Every error the parser reports, for every text it refuses, says what stands at its position. */
  lemma ErrorShows(lib: FloatLib, text: string)
    ensures var r := ParseText(lib, text);
            r.Err? ==> Shows(lib, Utf8.Encode(text), r.error) && !JsonSoundness.Impossible(r.error.kind)
  {
    JsonSoundness.ParseSound(lib, text);
    hide ValueAt, SkipSpace, Utf8.Encode, JsonSoundness.Impossible;
    var b := Utf8.Encode(text);
    assert Openings(b, [], 0);
    assert Opened(b, 0, 0);
    SkipStops(b, 0);
    OpenedLater(b, 0, 0, SkipSpace(b, 0));
    ValueShows(lib, b, SkipSpace(b, 0), 0);
    var r := ValueAt(lib, b, SkipSpace(b, 0), 0);
    if r.Ok? {
      SkipStops(b, r.next);
    }
  }
}
