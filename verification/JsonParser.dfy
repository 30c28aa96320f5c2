/** The parser as it runs: a byte buffer, a position that only moves forward, and loops. */
module JsonParser {
  import opened Common
  import opened JsonValue
  import opened JsonPrint
  import opened JsonGrammar
  import Utf8

  /** A call that ended at `pos` with `r` did what the grammar says. An error is reported where the parser stopped. */
  ghost predicate Agrees<T>(r: Result<T, JsonError>, pos: nat, p: Parsed<T>) {
    match r
    case Success(v) => p == Ok(v, pos)
    case Failure(e) => p == Err(e) && pos == e.pos
  }

  class Parser {
    const lib: FloatLib
    const bytes: seq<byte>
    var pos: nat

    constructor (lib: FloatLib, bytes: seq<byte>)
      ensures this.lib == lib && this.bytes == bytes && pos == 0
    {
      this.lib := lib;
      this.bytes := bytes;
      pos := 0;
    }

    function Error(kind: ErrorKind): JsonError
      reads this
    {
      JsonError(pos, kind)
    }

    method Skip()
      requires pos <= |bytes|
      modifies this
      ensures pos == SkipSpace(bytes, old(pos))
    {
      while pos < |bytes| && IsSpace(bytes[pos])
        invariant pos <= |bytes|
        invariant SkipSpace(bytes, pos) == SkipSpace(bytes, old(pos))
      {
        pos := pos + 1;
      }
    }

    method Require(c: char) returns (r: Result<(), JsonError>)
      requires pos <= |bytes|
      modifies this
      ensures pos <= |bytes| && Agrees(r, pos, Expect(bytes, old(pos), c))
    {
      if pos >= |bytes| {
        return Failure(Error(ExpectedAtEnd(c)));
      }
      if bytes[pos] != c as int {
        return Failure(Error(Expected(c)));
      }
      pos := pos + 1;
      return Success(());
    }

    method ParseLiteral(text: seq<byte>, v: Json) returns (r: Result<Json, JsonError>)
      requires pos <= |bytes|
      modifies this
      ensures pos <= |bytes| && Agrees(r, pos, Literal(bytes, old(pos), text, v))
    {
      if pos + |text| > |bytes| {
        return Failure(Error(LiteralAtEnd));
      }
      if bytes[pos..pos + |text|] != text {
        return Failure(Error(BadLiteral));
      }
      pos := pos + |text|;
      return Success(v);
    }

    /** The `\u` branch of `parse_string`: the bytes to append. */
    method ParseUnicodeEscape() returns (r: Result<seq<byte>, JsonError>)
      requires pos <= |bytes|
      modifies this
      ensures old(pos) <= pos <= |bytes| && Agrees(r, pos, UnicodeEscape(bytes, old(pos)))
    {
      hide Utf8.Valid, Utf8.EncodeChar, HexCode;
      if pos + 4 > |bytes| {
        return Failure(Error(TruncatedHex));
      }
      var hex := bytes[pos..pos + 4];
      if !Utf8.Valid(hex) {
        return Failure(Error(HexNotUtf8));
      }
      var code := HexCode(hex);
      if code.None? {
        return Failure(Error(BadHex));
      }
      pos := pos + 4;
      if 0xD800 <= code.value <= 0xDBFF {
        if pos + 6 > |bytes| || bytes[pos] != '\\' as int || bytes[pos + 1] != 'u' as int {
          return Failure(Error(ExpectedLowSurrogate));
        }
        var loHex := bytes[pos + 2..pos + 6];
        if !Utf8.Valid(loHex) {
          return Failure(Error(LowHexNotUtf8));
        }
        var lo := HexCode(loHex);
        if lo.None? {
          return Failure(Error(BadLowHex));
        }
        if !(0xDC00 <= lo.value <= 0xDFFF) {
          return Failure(Error(BadLowSurrogate));
        }
        var c := CharFromU32(Combine(code.value, lo.value));
        pos := pos + 6;
        if c.Some? {
          return Success(Utf8.EncodeChar(c.value));
        }
        return Failure(Error(BadSurrogatePair));
      }
      if 0xDC00 <= code.value <= 0xDFFF {
        return Failure(Error(LoneLowSurrogate));
      }
      var c := CharFromU32(code.value);
      if c.Some? {
        return Success(Utf8.EncodeChar(c.value));
      }
      return Failure(Error(BadCodePoint));
    }

    method ParseString() returns (r: Result<string, JsonError>)
      requires pos <= |bytes|
      modifies this
      ensures old(pos) <= pos <= |bytes| && Agrees(r, pos, StringAt(bytes, old(pos)))
    {
      hide UnicodeEscape, Utf8.Decode;
      var _ :- Require('\"');
      var out: seq<byte> := [];
      while pos < |bytes|
        invariant old(pos) < pos <= |bytes|
        invariant StringBody(bytes, pos, out) == StringAt(bytes, old(pos))
        decreases |bytes| - pos
      {
        var x := bytes[pos];
        pos := pos + 1;
        if x == '\"' as int {
          var s := Utf8.Decode(out);
          if s.Some? {
            return Success(s.value);
          }
          return Failure(Error(StringNotUtf8));
        } else if x == '\\' as int {
          if pos >= |bytes| {
            return Failure(Error(TrailingBackslash));
          }
          var esc := bytes[pos];
          pos := pos + 1;
          if SimpleEscape(esc).Some? {
            out := out + [SimpleEscape(esc).value];
          } else if esc == 'u' as int {
            var u :- ParseUnicodeEscape();
            out := out + u;
          } else {
            return Failure(Error(BadEscape));
          }
        } else if x < 0x20 {
          return Failure(Error(RawControl));
        } else {
          out := out + [x];
        }
      }
      return Failure(Error(UnterminatedString));
    }

    /** The digit loops of `parse_number`. */
    method AdvanceDigits()
      requires pos <= |bytes|
      modifies this
      ensures pos == SkipDigits(bytes, old(pos))
    {
      while pos < |bytes| && IsDigit(bytes[pos])
        invariant pos <= |bytes|
        invariant SkipDigits(bytes, pos) == SkipDigits(bytes, old(pos))
      {
        pos := pos + 1;
      }
    }

    /** The scanning half of `parse_number`: past the lexeme, and whether it has a fraction or an exponent. */
    method ScanNumber() returns (isFloat: bool)
      requires pos <= |bytes|
      modifies this
      ensures pos == NumberEnd(bytes, old(pos))
      ensures isFloat <==> pos > IntegerEnd(bytes, old(pos))
    {
      hide SkipDigits, IntegerEnd, FractionEnd, ExponentEnd;
      ScanInteger();
      var fraction := ScanFraction();
      var exponent := ScanExponent();
      isFloat := fraction || exponent;
    }

    method ScanInteger()
      requires pos <= |bytes|
      modifies this
      ensures pos == IntegerEnd(bytes, old(pos))
    {
      hide SkipDigits;
      if Sees(bytes, pos, '-') {
        pos := pos + 1;
      }
      if Sees(bytes, pos, '0') {
        pos := pos + 1;
      } else {
        AdvanceDigits();
      }
    }

    method ScanFraction() returns (isFloat: bool)
      requires pos <= |bytes|
      modifies this
      ensures pos == FractionEnd(bytes, old(pos))
      ensures isFloat <==> pos > old(pos)
    {
      hide SkipDigits;
      isFloat := false;
      if Sees(bytes, pos, '.') {
        isFloat := true;
        pos := pos + 1;
        AdvanceDigits();
      }
    }

    method ScanExponent() returns (isFloat: bool)
      requires pos <= |bytes|
      modifies this
      ensures pos == ExponentEnd(bytes, old(pos))
      ensures isFloat <==> pos > old(pos)
    {
      hide SkipDigits;
      isFloat := false;
      if Sees(bytes, pos, 'e') || Sees(bytes, pos, 'E') {
        isFloat := true;
        pos := pos + 1;
        if Sees(bytes, pos, '+') || Sees(bytes, pos, '-') {
          pos := pos + 1;
        }
        AdvanceDigits();
      }
    }

    method ParseNumber() returns (r: Result<Json, JsonError>)
      requires pos <= |bytes|
      modifies this
      ensures old(pos) <= pos <= |bytes| && Agrees(r, pos, NumberAt(lib, bytes, old(pos)))
    {
      hide Utf8.Decode, SignedValue, UnsignedValue, NumberEnd, IntegerEnd;
      var start := pos;
      var isFloat := ScanNumber();
      var s := Utf8.Decode(bytes[start..pos]);
      if s.None? {
        return Failure(Error(NumberNotUtf8));
      }
      var lexeme := s.value;
      if isFloat {
        var f := lib.read(lexeme);
        r := if f.Some? then Success(F64(f.value)) else Failure(Error(BadNumber));
      } else if lexeme != "" && lexeme[0] == '-' {
        var n := SignedValue(lexeme);
        r := if n.Some? then Success(I64(n.value)) else Failure(Error(BadNumber));
      } else {
        var n := UnsignedValue(lexeme);
        r := if n.Some? then Success(U64(n.value)) else Failure(Error(BadNumber));
      }
    }

    method ParseValue(depth: nat) returns (r: Result<Json, JsonError>)
      requires pos <= |bytes|
      modifies this
      ensures old(pos) <= pos <= |bytes| && Agrees(r, pos, ValueAt(lib, bytes, old(pos), depth))
      decreases |bytes| - pos, 2
    {
      hide SkipSpace, StringAt, NumberAt, ObjectAt, ArrayAt;
      if depth > MAX_DEPTH {
        return Failure(Error(DepthExceeded));
      }
      Skip();
      if pos >= |bytes| {
        return Failure(Error(ValueAtEnd));
      }
      var x := bytes[pos];
      if x == '{' as int {
        r := ParseObject(depth);
      } else if x == '[' as int {
        r := ParseArray(depth);
      } else if x == '\"' as int {
        var s :- ParseString();
        r := Success(Str(s));
      } else if x == 't' as int {
        r := ParseLiteral(TRUE_TEXT, Bool(true));
      } else if x == 'f' as int {
        r := ParseLiteral(FALSE_TEXT, Bool(false));
      } else if x == 'n' as int {
        r := ParseLiteral(NULL_TEXT, Null);
      } else if x == '-' as int || IsDigit(x) {
        r := ParseNumber();
      } else {
        r := Failure(Error(UnexpectedCharacter));
      }
    }

    /** What a container loop has read so far, followed by what the grammar still finds. */
    static ghost function After<T>(done: seq<T>, p: Parsed<seq<T>>): Parsed<seq<T>> {
      match p
      case Ok(rest, end) => Ok(done + rest, end)
      case Err(e) => Err(e)
    }

    /** One turn of the element loop. */
    static lemma ItemsStep(lib: FloatLib, b: seq<byte>, i: nat, depth: nat, done: seq<Json>)
      requires i <= |b|
      ensures var all := After(done, ItemsAt(lib, b, i, depth));
              match ValueAt(lib, b, i, depth + 1)
              case Err(e) => all == Err(e)
              case Ok(v, after) =>
                var k := SkipSpace(b, after);
                if Sees(b, k, ',') then
                  var m := SkipSpace(b, k + 1);
                  if Sees(b, m, ']') then all == Ok(done + [v], m + 1)
                  else all == After(done + [v], ItemsAt(lib, b, m, depth))
                else if Sees(b, k, ']') then all == Ok(done + [v], k + 1)
                else all == Fail(k, ArraySeparator)
    {
      hide ValueAt, SkipSpace;
      match ValueAt(lib, b, i, depth + 1)
      case Err(_) =>
      case Ok(v, after) =>
        var k := SkipSpace(b, after);
        if Sees(b, k, ',') {
          var rest := ItemsAt(lib, b, SkipSpace(b, k + 1), depth);
          if rest.Ok? {
            Regroup(done, [v], rest.value);
          }
        }
    }

    /** One turn of the member loop. */
    static lemma MembersStep(lib: FloatLib, b: seq<byte>, i: nat, depth: nat, done: seq<Entry>)
      requires i <= |b|
      ensures var all := After(done, MembersAt(lib, b, i, depth));
              match MemberAt(lib, b, i, depth)
              case Err(e) => all == Err(e)
              case Ok(m, after) =>
                var k := SkipSpace(b, after);
                if Sees(b, k, ',') then
                  var j := SkipSpace(b, k + 1);
                  if Sees(b, j, '}') then all == Ok(done + [m], j + 1)
                  else all == After(done + [m], MembersAt(lib, b, j, depth))
                else if Sees(b, k, '}') then all == Ok(done + [m], k + 1)
                else all == Fail(k, ObjectSeparator)
    {
      hide MemberAt, SkipSpace;
      match MemberAt(lib, b, i, depth)
      case Err(_) =>
      case Ok(m, after) =>
        var k := SkipSpace(b, after);
        if Sees(b, k, ',') {
          var rest := MembersAt(lib, b, SkipSpace(b, k + 1), depth);
          if rest.Ok? {
            Regroup(done, [m], rest.value);
          }
        }
    }

    method ParseArray(depth: nat) returns (r: Result<Json, JsonError>)
      requires pos < |bytes|
      modifies this
      ensures old(pos) <= pos <= |bytes| && Agrees(r, pos, ArrayAt(lib, bytes, old(pos), depth))
      decreases |bytes| - pos, 1
    {
      hide SkipSpace, ItemsAt;
      var _ :- Require('[');
      Skip();
      if Sees(bytes, pos, ']') {
        pos := pos + 1;
        return Success(Array([]));
      }
      var items :- ParseItems(depth);
      return Success(Array(items));
    }

    /** The element loop of `parse_array`. */
    method ParseItems(depth: nat) returns (r: Result<seq<Json>, JsonError>)
      requires pos <= |bytes|
      modifies this
      ensures old(pos) <= pos <= |bytes| && Agrees(r, pos, ItemsAt(lib, bytes, old(pos), depth))
      decreases |bytes| - pos, 3
    {
      hide SkipSpace, ValueAt, ItemsAt, After;
      var items: seq<Json> := [];
      AfterNothing(ItemsAt(lib, bytes, pos, depth));
      while true
        invariant old(pos) <= pos <= |bytes|
        invariant After(items, ItemsAt(lib, bytes, pos, depth)) == ItemsAt(lib, bytes, old(pos), depth)
        decreases |bytes| - pos
      {
        ItemsStep(lib, bytes, pos, depth, items);
        var v :- ParseValue(depth + 1);
        items := items + [v];
        Skip();
        if Sees(bytes, pos, ',') {
          pos := pos + 1;
          Skip();
          if Sees(bytes, pos, ']') {
            pos := pos + 1;
            return Success(items);
          }
        } else if Sees(bytes, pos, ']') {
          pos := pos + 1;
          return Success(items);
        } else {
          return Failure(Error(ArraySeparator));
        }
      }
    }

    method ParseObject(depth: nat) returns (r: Result<Json, JsonError>)
      requires pos < |bytes|
      modifies this
      ensures old(pos) <= pos <= |bytes| && Agrees(r, pos, ObjectAt(lib, bytes, old(pos), depth))
      decreases |bytes| - pos, 1
    {
      hide SkipSpace, MembersAt, Fold;
      var _ :- Require('{');
      Skip();
      if Sees(bytes, pos, '}') {
        pos := pos + 1;
        return Success(Object([]));
      }
      var entries :- ParseMembers(depth);
      return Success(Object(entries));
    }

    /** A key, a colon and a value. */
    method ParseMember(depth: nat) returns (r: Result<Entry, JsonError>)
      requires pos <= |bytes|
      modifies this
      ensures old(pos) <= pos <= |bytes| && Agrees(r, pos, MemberAt(lib, bytes, old(pos), depth))
      decreases |bytes| - pos, 0
    {
      hide SkipSpace, ValueAt, StringAt;
      Skip();
      var key :- ParseString();
      Skip();
      var _ :- Require(':');
      var v :- ParseValue(depth + 1);
      return Success(Entry(key, v));
    }

    /**
     The member loop of `parse_object`, which overwrites an earlier entry with the same key in place:
     it ends with the fold of the members as written.
     */
    method ParseMembers(depth: nat) returns (r: Result<seq<Entry>, JsonError>)
      requires pos <= |bytes|
      modifies this
      ensures old(pos) <= pos <= |bytes|
      ensures match r
              case Success(es) =>
                var p := MembersAt(lib, bytes, old(pos), depth);
                p.Ok? && es == Fold([], p.value) && pos == p.next
              case Failure(e) => MembersAt(lib, bytes, old(pos), depth) == Err(e) && pos == e.pos
      decreases |bytes| - pos, 3
    {
      hide SkipSpace, MemberAt, MembersAt, After, Fold;
      var entries: seq<Entry> := [];
      ghost var done: seq<Entry> := [];
      FoldNothing();
      AfterNothing(MembersAt(lib, bytes, pos, depth));
      while true
        invariant old(pos) <= pos <= |bytes|
        invariant After(done, MembersAt(lib, bytes, pos, depth)) == MembersAt(lib, bytes, old(pos), depth)
        invariant entries == Fold([], done)
        decreases |bytes| - pos
      {
        MembersStep(lib, bytes, pos, depth, done);
        var m :- ParseMember(depth);
        FoldSnoc([], done, m);
        entries := InsertInPlace(entries, m.key, m.value);
        done := done + [m];
        Skip();
        if Sees(bytes, pos, ',') {
          pos := pos + 1;
          Skip();
          if Sees(bytes, pos, '}') {
            pos := pos + 1;
            return Success(entries);
          }
        } else if Sees(bytes, pos, '}') {
          pos := pos + 1;
          return Success(entries);
        } else {
          return Failure(Error(ObjectSeparator));
        }
      }
    }

    static lemma AfterNothing<T>(p: Parsed<seq<T>>)
      ensures After([], p) == p
    {
      assert p.Ok? ==> [] + p.value == p.value;
    }

    static lemma FoldNothing()
      ensures Fold([], []) == []
    {
    }
  }

  /** `parse` on a Rust string. */
  method Parse(lib: FloatLib, text: string) returns (r: Result<Json, JsonError>)
    ensures match r
            case Success(v) => ParseText(lib, text).Ok? && v == ParseText(lib, text).value
            case Failure(e) => ParseText(lib, text) == Err(e)
  {
    var bytes := Utf8.Encode(text);
    var p := new Parser(lib, bytes);
    p.Skip();
    var v :- p.ParseValue(0);
    p.Skip();
    if p.pos != |bytes| {
      return Failure(p.Error(TrailingCharacters));
    }
    return Success(v);
  }
}
