/** What the parser guarantees of every input: which errors cannot occur, and the shape of every value it returns. */
module JsonSoundness {
  import opened Common
  import opened JsonValue
  import opened JsonPrint
  import opened Numerals
  import opened JsonGrammar
  import opened JsonReading
  import opened JsonSyntax
  import opened JsonTrees
  import opened JsonRoundTrip
  import Utf8

  // ---------------------------------------------------------------- character boundaries

  /** `i` is between two characters of the remaining text. */
  predicate Boundary(b: seq<byte>, i: nat)
    requires i <= |b|
  {
    Utf8.Valid(b[i..])
  }

  /** The errors the source guards against although no Rust string can cause them. */
  predicate Impossible(kind: ErrorKind) {
    kind.StringNotUtf8? || kind.NumberNotUtf8? || kind.BadSurrogatePair? || kind.BadCodePoint?
  }

  /** A step that started at a boundary ends at one, or fails for a possible reason. */
  ghost predicate Keeps<T>(b: seq<byte>, r: Parsed<T>) {
    match r
    case Ok(_, j) => j <= |b| && Boundary(b, j)
    case Err(e) => !Impossible(e.kind)
  }

  lemma {:induction false} AsciiKeepsBoundary(b: seq<byte>, i: nat, j: nat)
    requires i <= j <= |b| && Boundary(b, i) && forall k :: i <= k < j ==> b[k] < 0x80
    ensures Boundary(b, j)
    decreases j - i
  {
    if i < j {
      assert b[i..][0] == b[i] && b[i..][1..] == b[i + 1..];
      AsciiKeepsBoundary(b, i + 1, j);
    }
  }

  lemma SkipSpaceKeepsBoundary(b: seq<byte>, i: nat)
    requires i <= |b| && Boundary(b, i)
    ensures Boundary(b, SkipSpace(b, i))
  {
    hide SkipSpace, Boundary;
    AsciiKeepsBoundary(b, i, SkipSpace(b, i));
  }

  // ---------------------------------------------------------------- strings

  /** A hexadecimal number is below the power of sixteen its length allows, and its digits are ASCII. */
  lemma {:induction false} HexNumberBound(bs: seq<byte>)
    requires |bs| <= 4 && HexNumber(bs).Some?
    ensures HexNumber(bs).value < if |bs| == 4 then 0x1_0000 else if |bs| == 3 then 0x1000 else if |bs| == 2 then 0x100
                                  else if |bs| == 1 then 0x10 else 1
    ensures forall k :: 0 <= k < |bs| ==> bs[k] < 0x80
  {
    if bs != [] {
      HexNumberBound(bs[..|bs| - 1]);
      forall k | 0 <= k < |bs| ensures bs[k] < 0x80 {
        if k < |bs| - 1 {
          assert bs[..|bs| - 1][k] == bs[k];
        }
      }
    }
  }

  lemma HexCodeBound(bs: seq<byte>)
    requires |bs| == 4 && HexCode(bs).Some?
    ensures HexCode(bs).value < 0x1_0000
    ensures forall k :: 0 <= k < |bs| ==> bs[k] < 0x80
  {
    hide HexNumber;
    if bs[0] == 43 {
      HexNumberBound(bs[1..]);
      forall k | 0 <= k < |bs| ensures bs[k] < 0x80 {
        if k > 0 {
          assert bs[1..][k - 1] == bs[k];
        }
      }
    } else {
      HexNumberBound(bs);
    }
  }

  lemma OneCharIsUtf8(c: char)
    ensures Utf8.Valid(Utf8.EncodeChar(c))
  {
    hide Utf8.EncodeChar, Utf8.Valid, Utf8.Encode;
    Utf8.EncodeOne(c);
    Utf8.ValidEncode([c]);
  }

  lemma LowEscapeIsAscii(b: seq<byte>, j: nat)
    requires j + 6 <= |b| && Boundary(b, j) && b[j] == '\\' as int && b[j + 1] == 'u' as int
    requires HexCode(b[j + 2..j + 6]).Some?
    ensures Boundary(b, j + 6)
  {
    hide HexCode, Boundary;
    HexCodeBound(b[j + 2..j + 6]);
    AsciiSlice(b, j + 2, j + 6);
    AsciiKeepsBoundary(b, j, j + 6);
  }

  lemma LowSurrogateSound(b: seq<byte>, j: nat, hi: nat)
    requires j <= |b| && Boundary(b, j) && 0xD800 <= hi <= 0xDBFF
    ensures Keeps(b, LowSurrogate(b, j, hi))
    ensures LowSurrogate(b, j, hi).Ok? ==> Utf8.Valid(LowSurrogate(b, j, hi).value)
  {
    hide Utf8.Valid, Utf8.EncodeChar, HexCode, Boundary, Combine;
    if j + 6 <= |b| && b[j] == '\\' as int && b[j + 1] == 'u' as int {
      var code := HexCode(b[j + 2..j + 6]);
      if code.Some? && 0xDC00 <= code.value <= 0xDFFF {
        SurrogateBijection(0x1_0000, hi, code.value);
        OneCharIsUtf8(Combine(hi, code.value) as char);
        LowEscapeIsAscii(b, j);
      }
    }
  }

  /**
   An escape yields well-formed UTF-8 and leaves the parser at a boundary. The two invalid-code-point
   branches of the source are dead.
   */
  lemma UnicodeEscapeSound(b: seq<byte>, i: nat)
    requires i <= |b| && Boundary(b, i)
    ensures Keeps(b, UnicodeEscape(b, i))
    ensures UnicodeEscape(b, i).Ok? ==> Utf8.Valid(UnicodeEscape(b, i).value)
  {
    hide Utf8.Valid, Utf8.EncodeChar, HexCode, Boundary, LowSurrogate;
    if i + 4 <= |b| && HexCode(b[i..i + 4]).Some? {
      HexCodeBound(b[i..i + 4]);
      AsciiSlice(b, i, i + 4);
      AsciiKeepsBoundary(b, i, i + 4);
      var code := HexCode(b[i..i + 4]).value;
      if 0xD800 <= code <= 0xDBFF {
        LowSurrogateSound(b, i + 4, code);
      } else if !(0xDC00 <= code <= 0xDFFF) {
        OneCharIsUtf8(code as char);
      }
    }
  }

  lemma AsciiSlice(b: seq<byte>, i: nat, j: nat)
    requires i <= j <= |b| && forall k :: 0 <= k < j - i ==> b[i..j][k] < 0x80
    ensures forall k :: i <= k < j ==> b[k] < 0x80
  {
    forall k | i <= k < j ensures b[k] < 0x80 {
      assert b[i..j][k - i] == b[k];
    }
  }

  lemma EscapeSequenceSound(b: seq<byte>, i: nat)
    requires i <= |b| && Boundary(b, i)
    ensures Keeps(b, EscapeSequence(b, i))
    ensures EscapeSequence(b, i).Ok? ==> Utf8.Valid(EscapeSequence(b, i).value)
  {
    hide Utf8.Valid, UnicodeEscape;
    if i < |b| {
      if b[i] == 'u' as int {
        AsciiKeepsBoundary(b, i, i + 1);
        UnicodeEscapeSound(b, i + 1);
      } else if SimpleEscape(b[i]).Some? {
        AsciiKeepsBoundary(b, i, i + 1);
        AsciiIsUtf8([SimpleEscape(b[i]).value]);
      }
    }
  }

  /** The head character of a boundary, and the boundary after it. */
  lemma HeadBoundary(b: seq<byte>, i: nat) returns (j: nat)
    requires i < |b| && Boundary(b, i)
    ensures i < j <= |b| && Boundary(b, j) && Utf8.Valid(b[i..j])
    ensures j == i + Utf8.HeadLength(b[i..])
    ensures b[i] < 0x80 ==> j == i + 1
    ensures b[i] >= 0x80 ==> forall k :: i <= k < j ==> b[k] >= 0x80
  {
    var rest := b[i..];
    var n := Utf8.HeadLength(rest);
    j := i + n;
    assert rest[n..] == b[j..] && rest[..n] == b[i..j];
    assert forall k :: i <= k < j ==> b[k] == rest[k - i];
    hide Utf8.HeadLength;
    Utf8.EncodeHeadChar(rest);
    OneCharIsUtf8(Utf8.HeadChar(rest));
  }

  /** The bytes `parse_string` collects are always UTF-8, so `from_utf8` cannot fail. */
  lemma {:induction false} StringBodySound(b: seq<byte>, i: nat, out: seq<byte>)
    requires i <= |b| && Boundary(b, i) && Utf8.Valid(out)
    ensures Keeps(b, StringBody(b, i, out))
    decreases |b| - i
  {
    hide Utf8.Valid, EscapeSequence, Utf8.Decode, Boundary;
    if i < |b| {
      var j := HeadBoundary(b, i);
      if b[i] == '\"' as int {
      } else if b[i] == '\\' as int {
        EscapeSequenceSound(b, i + 1);
        var e := EscapeSequence(b, i + 1);
        if e.Ok? {
          Utf8.ValidConcat(out, e.value);
          StringBodySound(b, e.next, out + e.value);
        }
      } else if b[i] >= 0x20 {
        Utf8.ValidConcat(out, b[i..j]);
        if b[i] < 0x80 {
          assert b[i..j] == [b[i]];
        } else {
          CopiesRaw(b, i, j, out);
        }
        StringBodySound(b, j, out + b[i..j]);
      }
    }
  }

  lemma StringSound(b: seq<byte>, i: nat)
    requires i <= |b| && Boundary(b, i)
    ensures Keeps(b, StringAt(b, i))
  {
    hide StringBody, Boundary;
    if Sees(b, i, '\"') {
      AsciiKeepsBoundary(b, i, i + 1);
      AsciiIsUtf8([]);
      StringBodySound(b, i + 1, []);
    }
  }

  // ---------------------------------------------------------------- numbers and literals

  lemma NumberIsAscii(b: seq<byte>, i: nat)
    requires i <= |b|
    ensures forall k :: i <= k < NumberEnd(b, i) ==> b[k] < 0x80
  {
    hide SkipDigits;
    var m := IntegerEnd(b, i);
    assert forall k :: i <= k < m ==> b[k] < 0x80;
    var f := FractionEnd(b, m);
    assert forall k :: m <= k < f ==> b[k] < 0x80;
    assert forall k :: f <= k < ExponentEnd(b, f) ==> b[k] < 0x80;
  }

  lemma NumberSound(lib: FloatLib, b: seq<byte>, i: nat)
    requires i <= |b| && Boundary(b, i)
    ensures Keeps(b, NumberAt(lib, b, i))
    ensures NumberAt(lib, b, i).Ok? ==> Tidy(NumberAt(lib, b, i).value) && Depth(NumberAt(lib, b, i).value) == 0
  {
    hide NumberEnd, IntegerEnd, Utf8.Valid, DecimalValue, Utf8.Decode;
    var end := NumberEnd(b, i);
    NumberIsAscii(b, i);
    AsciiKeepsBoundary(b, i, end);
    assert forall k :: 0 <= k < end - i ==> b[i..end][k] == b[i + k];
    AsciiIsUtf8(b[i..end]);
  }

  lemma LiteralSound(b: seq<byte>, i: nat, text: seq<byte>, v: Json)
    requires i <= |b| && Boundary(b, i) && forall k :: 0 <= k < |text| ==> text[k] < 0x80
    ensures Keeps(b, Literal(b, i, text, v))
  {
    hide Boundary;
    if i + |text| <= |b| && b[i..i + |text|] == text {
      AsciiSlice(b, i, i + |text|);
      AsciiKeepsBoundary(b, i, i + |text|);
    }
  }

  // ---------------------------------------------------------------- values

  /** Every object has distinct keys, and a signed integer is never positive. */
  predicate Tidy(v: Json)
    decreases v
  {
    match v
    case I64(n) => n <= 0
    case Array(items) => forall x :: x in items ==> Tidy(x)
    case Object(entries) => Distinct(Keys(entries)) && forall e :: e in entries ==> Tidy(e.value)
    case _ => true
  }

  predicate Fits(v: Json, d: nat) { Tidy(v) && d + Depth(v) <= 512 }

  lemma {:induction false} DepthItemsBound(items: seq<Json>, n: nat)
    requires forall x :: x in items ==> 1 + Depth(x) <= n
    ensures DepthItems(items) <= n
  {
    if items != [] {
      assert items[0] in items;
      DepthItemsBound(items[1..], n);
    }
  }

  lemma {:induction false} DepthEntriesBound(es: seq<Entry>, n: nat)
    requires forall e :: e in es ==> 1 + Depth(e.value) <= n
    ensures DepthEntries(es) <= n
  {
    if es != [] {
      assert es[0] in es;
      DepthEntriesBound(es[1..], n);
    }
  }

  /** Folding invents no values. */
  lemma {:induction false} FoldMembers(ms: seq<Entry>)
    ensures forall e :: e in Fold([], ms) ==> e in ms
    decreases |ms|
  {
    if ms != [] {
      var init, m := ms[..|ms| - 1], ms[|ms| - 1];
      assert ms == init + [m];
      FoldMembers(init);
      FoldSnoc([], init, m);
      InsertMembers(Fold([], init), m.key, m.value);
    }
  }

  lemma {:induction false} InsertMembers(es: seq<Entry>, key: string, value: Json)
    ensures forall e :: e in Insert(es, key, value) ==> e in es || e == Entry(key, value)
  {
    if es != [] {
      InsertMembers(es[1..], key, value);
    }
  }

  /** `ValueAt` at any boundary: a value that fits, or a possible error. */
  lemma {:induction false} ValueSound(lib: FloatLib, b: seq<byte>, i: nat, d: nat)
    requires i <= |b| && Boundary(b, i)
    ensures Keeps(b, ValueAt(lib, b, i, d))
    ensures ValueAt(lib, b, i, d).Ok? ==> Fits(ValueAt(lib, b, i, d).value, d)
    decreases |b| - i, 2
  {
    hide SkipSpace, Boundary, StringAt, NumberAt, ObjectAt, ArrayAt, Literal;
    if d <= 512 {
      var j := SkipSpace(b, i);
      SkipSpaceKeepsBoundary(b, i);
      if j < |b| {
        if b[j] == '{' as int {
          ObjectSound(lib, b, j, d);
        } else if b[j] == '[' as int {
          ArraySound(lib, b, j, d);
        } else if b[j] == '\"' as int {
          StringSound(b, j);
        } else if b[j] == '-' as int || IsDigit(b[j]) {
          NumberSound(lib, b, j);
        } else {
          LiteralsSound(b, j);
        }
      }
    }
  }

  lemma LiteralsSound(b: seq<byte>, j: nat)
    requires j <= |b| && Boundary(b, j)
    ensures Keeps(b, Literal(b, j, TRUE_TEXT, Bool(true)))
    ensures Keeps(b, Literal(b, j, FALSE_TEXT, Bool(false)))
    ensures Keeps(b, Literal(b, j, NULL_TEXT, Null))
    ensures Literal(b, j, TRUE_TEXT, Bool(true)).Ok? ==> Literal(b, j, TRUE_TEXT, Bool(true)).value == Bool(true)
    ensures Literal(b, j, FALSE_TEXT, Bool(false)).Ok? ==> Literal(b, j, FALSE_TEXT, Bool(false)).value == Bool(false)
    ensures Literal(b, j, NULL_TEXT, Null).Ok? ==> Literal(b, j, NULL_TEXT, Null).value == Null
  {
    hide Boundary;
    LiteralSound(b, j, TRUE_TEXT, Bool(true));
    LiteralSound(b, j, FALSE_TEXT, Bool(false));
    LiteralSound(b, j, NULL_TEXT, Null);
  }

  lemma ArraySound(lib: FloatLib, b: seq<byte>, i: nat, d: nat)
    requires i < |b| && Boundary(b, i) && d <= 512
    ensures Keeps(b, ArrayAt(lib, b, i, d))
    ensures ArrayAt(lib, b, i, d).Ok? ==> Fits(ArrayAt(lib, b, i, d).value, d)
    decreases |b| - i, 1
  {
    hide SkipSpace, Boundary, ItemsAt;
    if b[i] == '[' as int {
      AsciiKeepsBoundary(b, i, i + 1);
      SkipSpaceKeepsBoundary(b, i + 1);
      var j := SkipSpace(b, i + 1);
      if Sees(b, j, ']') {
        AsciiKeepsBoundary(b, j, j + 1);
      } else {
        ItemsSound(lib, b, j, d);
        var r := ItemsAt(lib, b, j, d);
        if r.Ok? {
          DepthItemsBound(r.value, 512 - d);
        }
      }
    }
  }

  lemma {:induction false} ItemsSound(lib: FloatLib, b: seq<byte>, i: nat, d: nat)
    requires i <= |b| && Boundary(b, i)
    ensures Keeps(b, ItemsAt(lib, b, i, d))
    ensures ItemsAt(lib, b, i, d).Ok? ==> forall x :: x in ItemsAt(lib, b, i, d).value ==> Fits(x, d + 1)
    decreases |b| - i, 3
  {
    hide SkipSpace, Boundary, ValueAt, Fits;
    ValueSound(lib, b, i, d + 1);
    var v := ValueAt(lib, b, i, d + 1);
    if v.Ok? {
      SkipSpaceKeepsBoundary(b, v.next);
      var k := SkipSpace(b, v.next);
      if k < |b| && (b[k] == ',' as int || b[k] == ']' as int) {
        AsciiKeepsBoundary(b, k, k + 1);
        if b[k] == ',' as int {
          SkipSpaceKeepsBoundary(b, k + 1);
          var m := SkipSpace(b, k + 1);
          if Sees(b, m, ']') {
            AsciiKeepsBoundary(b, m, m + 1);
          } else {
            ItemsSound(lib, b, m, d);
          }
        }
      }
    }
  }

  lemma EmptyFits(d: nat)
    requires d <= 512
    ensures Fits(Object([]), d)
  {
  }

  lemma TidyObject(es: seq<Entry>)
    requires Distinct(Keys(es)) && forall e :: e in es ==> Tidy(e.value)
    ensures Tidy(Object(es)) && Depth(Object(es)) == DepthEntries(es)
  {
    hide Distinct, Keys;
  }

  lemma ObjectFits(ms: seq<Entry>, d: nat)
    requires d <= 512 && forall m :: m in ms ==> Fits(m.value, d + 1)
    ensures Fits(Object(Fold([], ms)), d)
  {
    hide Fold, Distinct, Keys, Tidy, Depth, DepthEntries, FirstOccurrences, LastValue, Lookup;
    var es := Fold([], ms);
    FoldMembers(ms);
    FoldIsFirstKeyLastValue(ms, "");
    forall e | e in es ensures Tidy(e.value) && 1 + Depth(e.value) <= 512 - d {
      assert e in ms;
    }
    TidyObject(es);
    DepthEntriesBound(es, 512 - d);
  }

  lemma ObjectSound(lib: FloatLib, b: seq<byte>, i: nat, d: nat)
    requires i < |b| && Boundary(b, i) && d <= 512
    ensures Keeps(b, ObjectAt(lib, b, i, d))
    ensures ObjectAt(lib, b, i, d).Ok? ==> Fits(ObjectAt(lib, b, i, d).value, d)
    decreases |b| - i, 1
  {
    hide SkipSpace, Boundary, MembersAt, Fold, Fits;
    EmptyFits(d);
    if b[i] == '{' as int {
      AsciiKeepsBoundary(b, i, i + 1);
      SkipSpaceKeepsBoundary(b, i + 1);
      var j := SkipSpace(b, i + 1);
      if Sees(b, j, '}') {
        AsciiKeepsBoundary(b, j, j + 1);
      } else {
        MembersSound(lib, b, j, d);
        var r := MembersAt(lib, b, j, d);
        if r.Ok? {
          ObjectFits(r.value, d);
        }
      }
    }
  }

  lemma MemberSound(lib: FloatLib, b: seq<byte>, i: nat, d: nat)
    requires i <= |b| && Boundary(b, i)
    ensures Keeps(b, MemberAt(lib, b, i, d))
    ensures MemberAt(lib, b, i, d).Ok? ==> Fits(MemberAt(lib, b, i, d).value.value, d + 1)
    decreases |b| - i, 0
  {
    hide SkipSpace, Boundary, StringAt, ValueAt, Fits;
    SkipSpaceKeepsBoundary(b, i);
    var s := SkipSpace(b, i);
    StringSound(b, s);
    var key := StringAt(b, s);
    if key.Ok? {
      SkipSpaceKeepsBoundary(b, key.next);
      var c := SkipSpace(b, key.next);
      if Sees(b, c, ':') {
        AsciiKeepsBoundary(b, c, c + 1);
        ValueSound(lib, b, c + 1, d + 1);
      }
    }
  }

  lemma {:induction false} MembersSound(lib: FloatLib, b: seq<byte>, i: nat, d: nat)
    requires i <= |b| && Boundary(b, i)
    ensures Keeps(b, MembersAt(lib, b, i, d))
    ensures MembersAt(lib, b, i, d).Ok? ==> forall e :: e in MembersAt(lib, b, i, d).value ==> Fits(e.value, d + 1)
    decreases |b| - i, 3
  {
    hide SkipSpace, Boundary, MemberAt, Fits;
    MemberSound(lib, b, i, d);
    var m := MemberAt(lib, b, i, d);
    if m.Ok? {
      SkipSpaceKeepsBoundary(b, m.next);
      var k := SkipSpace(b, m.next);
      if k < |b| && (b[k] == ',' as int || b[k] == '}' as int) {
        AsciiKeepsBoundary(b, k, k + 1);
        if b[k] == ',' as int {
          SkipSpaceKeepsBoundary(b, k + 1);
          var j := SkipSpace(b, k + 1);
          if Sees(b, j, '}') {
            AsciiKeepsBoundary(b, j, j + 1);
          } else {
            MembersSound(lib, b, j, d);
          }
        }
      }
    }
  }

  // ---------------------------------------------------------------- whole documents

  /**
   For every Rust string: none of the four guarded-against errors occurs, and a value that is returned
   has distinct keys in every object, no positive signed integer, and no leaf below depth 512.
   */
  lemma ParseSound(lib: FloatLib, text: string)
    ensures match ParseText(lib, text)
            case Ok(v, _) => Tidy(v) && Depth(v) <= 512
            case Err(e) => !Impossible(e.kind)
  {
    hide Utf8.Encode, Utf8.Valid, ValueAt, SkipSpace;
    var b := Utf8.Encode(text);
    Utf8.ValidEncode(text);
    assert b[0..] == b;
    SkipSpaceKeepsBoundary(b, 0);
    ValueSound(lib, b, SkipSpace(b, 0), 0);
  }

  /** A parsed value and its normal form print alike. */
  lemma {:induction false} RenderNormal(lib: FloatLib, v: Json, l: Layout)
    requires Tidy(v)
    ensures Render(lib, Normal(v), l) == Render(lib, v, l)
    decreases v, 1
  {
    match v
    case Array(items) =>
      RenderNormalItems(lib, items, Inner(l));
    case Object(entries) =>
      assert Keys(NormalEntries(entries)) == Keys(entries);
      FoldDistinct(NormalEntries(entries));
      RenderNormalEntries(lib, entries, Inner(l));
    case _ =>
  }

  lemma {:induction false} RenderNormalItems(lib: FloatLib, items: seq<Json>, l: Layout)
    requires forall x :: x in items ==> Tidy(x)
    ensures RenderItems(lib, NormalItems(items), l) == RenderItems(lib, items, l)
    decreases items, 0
  {
    hide Render, Tidy, Break;
    if items != [] {
      RenderNormal(lib, items[0], l);
      RenderNormalItems(lib, items[1..], l);
      assert NormalItems(items)[1..] == NormalItems(items[1..]);
    }
  }

  lemma {:induction false} RenderNormalEntries(lib: FloatLib, es: seq<Entry>, l: Layout)
    requires forall e :: e in es ==> Tidy(e.value)
    ensures RenderEntries(lib, NormalEntries(es), l) == RenderEntries(lib, es, l)
    decreases es, 0
  {
    hide Render, Tidy, Break, Quote;
    if es != [] {
      RenderNormal(lib, es[0].value, l);
      RenderNormalEntries(lib, es[1..], l);
      assert NormalEntries(es)[1..] == NormalEntries(es[1..]);
    }
  }

  /**
   For every text that parses to a value whose floats read back: the print of that value parses again, to its
   normal form, and printing that gives the same text.
   */
  lemma ReprintStable(lib: FloatLib, text: string, l: Layout)
    requires ParseText(lib, text).Ok? && FloatsReadBack(lib, ParseText(lib, text).value)
    ensures var printed := Render(lib, ParseText(lib, text).value, l);
            var again := ParseText(lib, printed);
            again.Ok? && again.value == Normal(ParseText(lib, text).value) && Render(lib, again.value, l) == printed
  {
    hide ParseText, Render, Normal, FloatsReadBack, Tidy, Depth;
    var v := ParseText(lib, text).value;
    ParseSound(lib, text);
    ParseRender(lib, v, l);
    RenderNormal(lib, v, l);
  }

  /** Reparsing a print is not always the identity on parsed values: `-0` is read as a signed zero. */
  lemma NegativeZeroChanges(lib: FloatLib)
    ensures ParseText(lib, "-0") == Ok(I64(0), 2)
    ensures Render(lib, I64(0), Compact) == "0" && ParseText(lib, "0").Ok? && ParseText(lib, "0").value == U64(0)
  {
    var n := Numeral(true, "0", None, None);
    NegativeZero(lib, n);
    TwoBytes();
    assert I64(0).I64? && FloatsReadBack(lib, I64(0));
    hide ParseText, Denote, Fault, Legal, FloatReadsBack;
    assert DocumentText("", Number(n), "") == "-0" && Blank("");
    ReadsDocument(lib, "", Number(n), "");
    FaultExactly(lib, Number(n), 0);
    ParseRender(lib, I64(0), Compact);
  }

  lemma NegativeZero(lib: FloatLib, n: Numeral)
    requires n == Numeral(true, "0", None, None)
    ensures Legal(Number(n), false) && Denote(lib, Number(n)) == Some(I64(0)) && Unparse(Number(n)) == "-0"
  {
    assert "0"[..0] == "" && Magnitude("") == 0;
    assert Magnitude("0") == 0;
    assert NumeralText(n) == "-" + ("0" + ("" + "")) == "-0";
  }

  lemma TwoBytes()
    ensures |Utf8.Encode("-0")| == 2
  {
    assert "-0"[1..] == "0" && "0"[1..] == "";
    assert Utf8.Encode("0") == [0x30];
  }
}
