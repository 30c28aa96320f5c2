/**
 What the recursive-descent parser accepts, as functions of the whole input and a position. Each
 gives the value and the position after it, or the error the source reports and where.
 */
module JsonGrammar {
  import opened Common
  import opened JsonValue
  import Utf8
  import opened JsonPrint
  import opened Numerals

  const MAX_DEPTH := 512

  /** Which message the source builds; the wording itself is not modelled. */
  datatype ErrorKind =
    | DepthExceeded
    | ValueAtEnd
    | UnexpectedCharacter
    | ExpectedAtEnd(expected: char)
    | Expected(expected: char)
    | LiteralAtEnd
    | BadLiteral
    | ObjectSeparator
    | ArraySeparator
    | UnterminatedString
    | StringNotUtf8
    | RawControl
    | TrailingBackslash
    | BadEscape
    | TruncatedHex
    | HexNotUtf8
    | BadHex
    | ExpectedLowSurrogate
    | LowHexNotUtf8
    | BadLowHex
    | BadLowSurrogate
    | BadSurrogatePair
    | LoneLowSurrogate
    | BadCodePoint
    | NumberNotUtf8
    | BadNumber
    | TrailingCharacters

  datatype JsonError = JsonError(pos: nat, kind: ErrorKind)

  datatype Parsed<+T> = Ok(value: T, next: nat) | Err(error: JsonError)

  function Fail<T>(pos: nat, kind: ErrorKind): Parsed<T> {
    Err(JsonError(pos, kind))
  }

  /** The byte at `i` is the ASCII character `c`. */
  predicate Sees(b: seq<byte>, i: nat, c: char) {
    i < |b| && b[i] == c as int
  }

  // ---------------------------------------------------------------- white space and punctuation

  predicate IsSpace(x: byte) {
    x == 0x20 || x == 0x09 || x == 0x0A || x == 0x0D
  }

  function SkipSpace(b: seq<byte>, i: nat): (j: nat)
    requires i <= |b|
    ensures i <= j <= |b|
    ensures forall k :: i <= k < j ==> IsSpace(b[k])
    ensures j < |b| ==> !IsSpace(b[j])
    decreases |b| - i
  {
    if i < |b| && IsSpace(b[i]) then SkipSpace(b, i + 1) else i
  }

  function Expect(b: seq<byte>, i: nat, c: char): Parsed<()> {
    if i >= |b| then Fail(i, ExpectedAtEnd(c))
    else if b[i] != c as int then Fail(i, Expected(c))
    else Ok((), i + 1)
  }

  function Literal(b: seq<byte>, i: nat, text: seq<byte>, v: Json): Parsed<Json>
    requires i <= |b|
  {
    if i + |text| > |b| then Fail(i, LiteralAtEnd)
    else if b[i..i + |text|] != text then Fail(i, BadLiteral)
    else Ok(v, i + |text|)
  }

  // ---------------------------------------------------------------- strings

  function HexValue(x: byte): Option<nat> {
    if 48 <= x <= 57 then Some(x - 48)
    else if 97 <= x <= 102 then Some(x - 87)
    else if 65 <= x <= 70 then Some(x - 55)
    else None
  }

  function HexNumber(bs: seq<byte>): (r: Option<nat>)
  {
    if bs == [] then Some(0)
    else
      match (HexNumber(bs[..|bs| - 1]), HexValue(bs[|bs| - 1]))
      case (Some(hi), Some(lo)) => Some(hi * 16 + lo)
      case _ => None
  }

  /**
   `u32::from_str_radix(hex, 16)` on a four-byte slice. The library routine takes an optional
   leading plus sign, so three digits after a plus are accepted too.
   */
  function HexCode(hex: seq<byte>): Option<nat>
    requires |hex| == 4
  {
    if hex[0] == 43 then HexNumber(hex[1..]) else HexNumber(hex)
  }

  /** `char::from_u32`. */
  function CharFromU32(n: nat): Option<char> {
    if n < 0xD800 || 0xE000 <= n < 0x11_0000 then Some(n as char) else None
  }

  function Combine(hi: nat, lo: nat): nat
    requires 0xD800 <= hi <= 0xDBFF && 0xDC00 <= lo <= 0xDFFF
  {
    0x1_0000 + (hi - 0xD800) * 1024 + (lo - 0xDC00)
  }

  /** After a high surrogate escape: the low half, and the character the two stand for. */
  function LowSurrogate(b: seq<byte>, j: nat, hi: nat): (r: Parsed<seq<byte>>)
    requires j <= |b| && 0xD800 <= hi <= 0xDBFF
    ensures r.Ok? ==> j < r.next <= |b|
    ensures r.Err? ==> j <= r.error.pos <= |b|
  {
    if j + 6 > |b| || b[j] != '\\' as int || b[j + 1] != 'u' as int then Fail(j, ExpectedLowSurrogate)
    else if !Utf8.Valid(b[j + 2..j + 6]) then Fail(j, LowHexNotUtf8)
    else
      match HexCode(b[j + 2..j + 6])
      case None => Fail(j, BadLowHex)
      case Some(lo) =>
        if !(0xDC00 <= lo <= 0xDFFF) then Fail(j, BadLowSurrogate)
        else
          match CharFromU32(Combine(hi, lo))
          case Some(c) => Ok(Utf8.EncodeChar(c), j + 6)
          case None => Fail(j + 6, BadSurrogatePair)
  }

  /** After `\u`: the bytes the escape stands for. */
  function UnicodeEscape(b: seq<byte>, i: nat): (r: Parsed<seq<byte>>)
    requires i <= |b|
    ensures r.Ok? ==> i < r.next <= |b|
    ensures r.Err? ==> i <= r.error.pos <= |b|
  {
    if i + 4 > |b| then Fail(i, TruncatedHex)
    else if !Utf8.Valid(b[i..i + 4]) then Fail(i, HexNotUtf8)
    else
      match HexCode(b[i..i + 4])
      case None => Fail(i, BadHex)
      case Some(code) =>
        if 0xD800 <= code <= 0xDBFF then LowSurrogate(b, i + 4, code)
        else if 0xDC00 <= code <= 0xDFFF then Fail(i + 4, LoneLowSurrogate)
        else
          match CharFromU32(code)
          case Some(c) => Ok(Utf8.EncodeChar(c), i + 4)
          case None => Fail(i + 4, BadCodePoint)
  }

  /** The byte a one-letter escape stands for. */
  function SimpleEscape(x: byte): Option<byte> {
    if x == '\"' as int then Some(0x22)
    else if x == '\\' as int then Some(0x5C)
    else if x == '/' as int then Some(0x2F)
    else if x == 'b' as int then Some(0x08)
    else if x == 'f' as int then Some(0x0C)
    else if x == 'n' as int then Some(0x0A)
    else if x == 'r' as int then Some(0x0D)
    else if x == 't' as int then Some(0x09)
    else None
  }

  /** After a backslash. */
  function EscapeSequence(b: seq<byte>, i: nat): (r: Parsed<seq<byte>>)
    requires i <= |b|
    ensures r.Ok? ==> i < r.next <= |b|
    ensures r.Err? ==> i <= r.error.pos <= |b|
  {
    if i >= |b| then Fail(i, TrailingBackslash)
    else if SimpleEscape(b[i]).Some? then Ok([SimpleEscape(b[i]).value], i + 1)
    else if b[i] == 'u' as int then UnicodeEscape(b, i + 1)
    else Fail(i + 1, BadEscape)
  }

  /** After the opening quote, with `out` collected so far. */
  function StringBody(b: seq<byte>, i: nat, out: seq<byte>): (r: Parsed<string>)
    requires i <= |b|
    ensures r.Ok? ==> i < r.next <= |b|
    ensures r.Err? ==> i <= r.error.pos <= |b|
    decreases |b| - i
  {
    if i >= |b| then Fail(i, UnterminatedString)
    else if b[i] == '\"' as int then
      match Utf8.Decode(out)
      case Some(s) => Ok(s, i + 1)
      case None => Fail(i + 1, StringNotUtf8)
    else if b[i] == '\\' as int then
      match EscapeSequence(b, i + 1)
      case Ok(bytes, j) => StringBody(b, j, out + bytes)
      case Err(e) => Err(e)
    else if b[i] < 0x20 then Fail(i + 1, RawControl)
    else StringBody(b, i + 1, out + [b[i]])
  }

  function StringAt(b: seq<byte>, i: nat): (r: Parsed<string>)
    requires i <= |b|
    ensures r.Ok? ==> i < r.next <= |b|
    ensures r.Err? ==> i <= r.error.pos <= |b|
  {
    match Expect(b, i, '\"')
    case Ok(_, j) => StringBody(b, j, [])
    case Err(e) => Err(e)
  }

  // ---------------------------------------------------------------- numbers

  predicate IsDigit(x: byte) { 48 <= x <= 57 }

  function SkipDigits(b: seq<byte>, i: nat): (j: nat)
    requires i <= |b|
    ensures i <= j <= |b|
    ensures forall k :: i <= k < j ==> IsDigit(b[k])
    ensures j < |b| ==> !IsDigit(b[j])
    decreases |b| - i
  {
    if i < |b| && IsDigit(b[i]) then SkipDigits(b, i + 1) else i
  }

  /** The end of the sign and integer digits. */
  function IntegerEnd(b: seq<byte>, i: nat): (j: nat)
    requires i <= |b|
    ensures i <= j <= |b|
  {
    var j := if Sees(b, i, '-') then i + 1 else i;
    if Sees(b, j, '0') then j + 1 else SkipDigits(b, j)
  }

  function FractionEnd(b: seq<byte>, i: nat): (j: nat)
    requires i <= |b|
    ensures i <= j <= |b|
  {
    if Sees(b, i, '.') then SkipDigits(b, i + 1) else i
  }

  function ExponentEnd(b: seq<byte>, i: nat): (j: nat)
    requires i <= |b|
    ensures i <= j <= |b|
  {
    if Sees(b, i, 'e') || Sees(b, i, 'E') then
      var j := i + 1;
      SkipDigits(b, if Sees(b, j, '+') || Sees(b, j, '-') then j + 1 else j)
    else i
  }

  function NumberEnd(b: seq<byte>, i: nat): (j: nat)
    requires i <= |b|
    ensures i <= j <= |b|
  {
    ExponentEnd(b, FractionEnd(b, IntegerEnd(b, i)))
  }

  /** `parse::<i64>` on a lexeme that starts with a minus sign. */
  function SignedValue(lexeme: string): Option<i64>
    requires lexeme != ""
  {
    match DecimalValue(lexeme[1..])
    case Some(n) => if n <= 0x8000_0000_0000_0000 then Some(-(n as int)) else None
    case None => None
  }

  /** `parse::<u64>` on a lexeme without a sign. */
  function UnsignedValue(lexeme: string): Option<u64> {
    match DecimalValue(lexeme)
    case Some(n) => if n < 0x1_0000_0000_0000_0000 then Some(n) else None
    case None => None
  }

  /** What the characters of a lexeme are read as. */
  function LexemeValue(lib: FloatLib, lexeme: string, isFloat: bool): Option<Json> {
    if isFloat then
      match lib.read(lexeme)
      case Some(f) => Some(F64(f))
      case None => None
    else if lexeme != "" && lexeme[0] == '-' then
      match SignedValue(lexeme)
      case Some(n) => Some(I64(n))
      case None => None
    else
      match UnsignedValue(lexeme)
      case Some(n) => Some(U64(n))
      case None => None
  }

  function NumberAt(lib: FloatLib, b: seq<byte>, i: nat): (r: Parsed<Json>)
    requires i <= |b|
    ensures r.Ok? ==> i <= r.next <= |b|
    ensures r.Err? ==> i <= r.error.pos <= |b|
  {
    var end := NumberEnd(b, i);
    match Utf8.Decode(b[i..end])
    case None => Fail(end, NumberNotUtf8)
    case Some(lexeme) =>
      match LexemeValue(lib, lexeme, end > IntegerEnd(b, i))
      case Some(v) => Ok(v, end)
      case None => Fail(end, BadNumber)
  }

  // ---------------------------------------------------------------- values

  const TRUE_TEXT: seq<byte> := [0x74, 0x72, 0x75, 0x65]
  const FALSE_TEXT: seq<byte> := [0x66, 0x61, 0x6C, 0x73, 0x65]
  const NULL_TEXT: seq<byte> := [0x6E, 0x75, 0x6C, 0x6C]

  function ValueAt(lib: FloatLib, b: seq<byte>, i: nat, depth: nat): (r: Parsed<Json>)
    requires i <= |b|
    ensures r.Ok? ==> i <= r.next <= |b|
    ensures r.Err? ==> i <= r.error.pos <= |b|
    decreases |b| - i, 2
  {
    if depth > MAX_DEPTH then Fail(i, DepthExceeded)
    else
      var j := SkipSpace(b, i);
      if j >= |b| then Fail(j, ValueAtEnd)
      else if b[j] == '{' as int then ObjectAt(lib, b, j, depth)
      else if b[j] == '[' as int then ArrayAt(lib, b, j, depth)
      else if b[j] == '\"' as int then
        match StringAt(b, j)
        case Ok(s, k) => Ok(Str(s), k)
        case Err(e) => Err(e)
      else if b[j] == 't' as int then Literal(b, j, TRUE_TEXT, Bool(true))
      else if b[j] == 'f' as int then Literal(b, j, FALSE_TEXT, Bool(false))
      else if b[j] == 'n' as int then Literal(b, j, NULL_TEXT, Null)
      else if b[j] == '-' as int || IsDigit(b[j]) then NumberAt(lib, b, j)
      else Fail(j, UnexpectedCharacter)
  }

  function ObjectAt(lib: FloatLib, b: seq<byte>, i: nat, depth: nat): (r: Parsed<Json>)
    requires i < |b|
    ensures r.Ok? ==> i <= r.next <= |b|
    ensures r.Err? ==> i <= r.error.pos <= |b|
    decreases |b| - i, 1
  {
    match Expect(b, i, '{')
    case Err(e) => Err(e)
    case Ok(_, start) =>
      var j := SkipSpace(b, start);
      if Sees(b, j, '}') then Ok(Object([]), j + 1)
      else
        match MembersAt(lib, b, j, depth)
        case Ok(ms, k) => Ok(Object(Fold([], ms)), k)
        case Err(e) => Err(e)
  }

  /** A key, a colon and a value. */
  function MemberAt(lib: FloatLib, b: seq<byte>, i: nat, depth: nat): (r: Parsed<Entry>)
    requires i <= |b|
    ensures r.Ok? ==> i <= r.next <= |b|
    ensures r.Err? ==> i <= r.error.pos <= |b|
    decreases |b| - i, 0
  {
    match StringAt(b, SkipSpace(b, i))
    case Err(e) => Err(e)
    case Ok(key, afterKey) =>
      match Expect(b, SkipSpace(b, afterKey), ':')
      case Err(e) => Err(e)
      case Ok(_, j) =>
        match ValueAt(lib, b, j, depth + 1)
        case Err(e) => Err(e)
        case Ok(v, end) => Ok(Entry(key, v), end)
  }

  /** One or more members, exactly as written, and the closing brace. A trailing comma is accepted. */
  function MembersAt(lib: FloatLib, b: seq<byte>, i: nat, depth: nat): (r: Parsed<seq<Entry>>)
    requires i <= |b|
    ensures r.Ok? ==> i <= r.next <= |b|
    ensures r.Err? ==> i <= r.error.pos <= |b|
    decreases |b| - i, 3
  {
    match MemberAt(lib, b, i, depth)
    case Err(e) => Err(e)
    case Ok(m, afterMember) =>
      var k := SkipSpace(b, afterMember);
      if Sees(b, k, ',') then
        var j := SkipSpace(b, k + 1);
        if Sees(b, j, '}') then Ok([m], j + 1)
        else
          match MembersAt(lib, b, j, depth)
          case Ok(rest, end) => Ok([m] + rest, end)
          case Err(e) => Err(e)
      else if Sees(b, k, '}') then Ok([m], k + 1)
      else Fail(k, ObjectSeparator)
  }

  function ArrayAt(lib: FloatLib, b: seq<byte>, i: nat, depth: nat): (r: Parsed<Json>)
    requires i < |b|
    ensures r.Ok? ==> i <= r.next <= |b|
    ensures r.Err? ==> i <= r.error.pos <= |b|
    decreases |b| - i, 1
  {
    match Expect(b, i, '[')
    case Err(e) => Err(e)
    case Ok(_, start) =>
      var j := SkipSpace(b, start);
      if Sees(b, j, ']') then Ok(Array([]), j + 1)
      else
        match ItemsAt(lib, b, j, depth)
        case Ok(items, k) => Ok(Array(items), k)
        case Err(e) => Err(e)
  }

  /** One or more elements and the closing bracket. A trailing comma is accepted. */
  function ItemsAt(lib: FloatLib, b: seq<byte>, i: nat, depth: nat): (r: Parsed<seq<Json>>)
    requires i <= |b|
    ensures r.Ok? ==> i <= r.next <= |b|
    ensures r.Err? ==> i <= r.error.pos <= |b|
    decreases |b| - i, 3
  {
    match ValueAt(lib, b, i, depth + 1)
    case Err(e) => Err(e)
    case Ok(v, afterValue) =>
      var k := SkipSpace(b, afterValue);
      if Sees(b, k, ',') then
        var m := SkipSpace(b, k + 1);
        if Sees(b, m, ']') then Ok([v], m + 1)
        else
          match ItemsAt(lib, b, m, depth)
          case Ok(rest, end) => Ok([v] + rest, end)
          case Err(e) => Err(e)
      else if Sees(b, k, ']') then Ok([v], k + 1)
      else Fail(k, ArraySeparator)
  }

  // The ways an element loop goes on after one element; likewise for members.

  lemma ItemsError(lib: FloatLib, b: seq<byte>, i: nat, depth: nat)
    requires i <= |b| && ValueAt(lib, b, i, depth + 1).Err?
    ensures ItemsAt(lib, b, i, depth) == Err(ValueAt(lib, b, i, depth + 1).error)
  {
    hide ValueAt;
  }

  lemma ItemsLast(lib: FloatLib, b: seq<byte>, i: nat, depth: nat, v: Json, after: nat)
    requires i <= |b| && ValueAt(lib, b, i, depth + 1) == Ok(v, after)
    requires after <= |b| && Sees(b, SkipSpace(b, after), ']')
    ensures ItemsAt(lib, b, i, depth) == Ok([v], SkipSpace(b, after) + 1)
  {
    hide ValueAt, SkipSpace;
  }

  lemma ItemsTrailing(lib: FloatLib, b: seq<byte>, i: nat, depth: nat, v: Json, after: nat)
    requires i <= |b| && ValueAt(lib, b, i, depth + 1) == Ok(v, after)
    requires after <= |b| && Sees(b, SkipSpace(b, after), ',') && Sees(b, SkipSpace(b, SkipSpace(b, after) + 1), ']')
    ensures ItemsAt(lib, b, i, depth) == Ok([v], SkipSpace(b, SkipSpace(b, after) + 1) + 1)
  {
    hide ValueAt, SkipSpace;
  }

  lemma ItemsMore(lib: FloatLib, b: seq<byte>, i: nat, depth: nat, v: Json, after: nat, m: nat)
    requires i <= |b| && ValueAt(lib, b, i, depth + 1) == Ok(v, after)
    requires after <= |b| && Sees(b, SkipSpace(b, after), ',')
    requires m == SkipSpace(b, SkipSpace(b, after) + 1) && !Sees(b, m, ']')
    ensures ItemsAt(lib, b, i, depth)
         == match ItemsAt(lib, b, m, depth)
            case Ok(rest, end) => Ok([v] + rest, end)
            case Err(e) => Err(e)
  {
    hide ValueAt, SkipSpace;
  }

  lemma MembersError(lib: FloatLib, b: seq<byte>, i: nat, depth: nat)
    requires i <= |b| && MemberAt(lib, b, i, depth).Err?
    ensures MembersAt(lib, b, i, depth) == Err(MemberAt(lib, b, i, depth).error)
  {
    hide MemberAt;
  }

  lemma MembersLast(lib: FloatLib, b: seq<byte>, i: nat, depth: nat, m: Entry, after: nat)
    requires i <= |b| && MemberAt(lib, b, i, depth) == Ok(m, after)
    requires after <= |b| && Sees(b, SkipSpace(b, after), '}')
    ensures MembersAt(lib, b, i, depth) == Ok([m], SkipSpace(b, after) + 1)
  {
    hide MemberAt, SkipSpace;
  }

  lemma MembersTrailing(lib: FloatLib, b: seq<byte>, i: nat, depth: nat, m: Entry, after: nat)
    requires i <= |b| && MemberAt(lib, b, i, depth) == Ok(m, after)
    requires after <= |b| && Sees(b, SkipSpace(b, after), ',') && Sees(b, SkipSpace(b, SkipSpace(b, after) + 1), '}')
    ensures MembersAt(lib, b, i, depth) == Ok([m], SkipSpace(b, SkipSpace(b, after) + 1) + 1)
  {
    hide MemberAt, SkipSpace;
  }

  lemma MembersMore(lib: FloatLib, b: seq<byte>, i: nat, depth: nat, m: Entry, after: nat, j: nat)
    requires i <= |b| && MemberAt(lib, b, i, depth) == Ok(m, after)
    requires after <= |b| && Sees(b, SkipSpace(b, after), ',')
    requires j == SkipSpace(b, SkipSpace(b, after) + 1) && !Sees(b, j, '}')
    ensures MembersAt(lib, b, i, depth)
         == match MembersAt(lib, b, j, depth)
            case Ok(rest, end) => Ok([m] + rest, end)
            case Err(e) => Err(e)
  {
    hide MemberAt, SkipSpace;
  }

  /** `parse` on the bytes of a document. */
  function Document(lib: FloatLib, b: seq<byte>): (r: Parsed<Json>)
    ensures r.Ok? ==> r.next == |b|
    ensures r.Err? ==> r.error.pos <= |b|
  {
    match ValueAt(lib, b, SkipSpace(b, 0), 0)
    case Err(e) => Err(e)
    case Ok(v, k) =>
      var end := SkipSpace(b, k);
      if end != |b| then Fail(end, TrailingCharacters) else Ok(v, end)
  }

  /** `parse` on a Rust string. */
  function ParseText(lib: FloatLib, text: string): (r: Parsed<Json>)
  {
    Document(lib, Utf8.Encode(text))
  }
}
