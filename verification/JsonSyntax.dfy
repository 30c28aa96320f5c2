/**
 Concrete JSON texts as trees, after sections 2 to 7 of RFC 8259: every choice a writer has (white space, escapes, the
 spelling of numbers) is recorded, so a tree has one text. A strict tree is one the grammar of RFC 8259 derives, unpaired
 surrogate escapes included; the other trees use the liberties the parser takes. Not every tree stands for a value.
 */
module JsonSyntax {
  import opened Common
  import opened JsonValue
  import opened JsonPrint
  import opened Numerals

  // ---------------------------------------------------------------- white space

  predicate Blank(t: string) {
    forall c :: c in t ==> c == ' ' || c == '\t' || c == '\n' || c == '\r'
  }

  // ---------------------------------------------------------------- strings

  /**
   One character of section 7 and how it is written. The code is that of the character, or for a numbered escape the UTF-16
   code unit it names, which may be half of a surrogate pair.
   */
  datatype Spelled = Spelled(code: nat, text: string)

  /** A hexadecimal digit, in either case. */
  predicate HexChar(x: char, d: nat) {
    if d < 10 then x as int == 48 + d else d < 16 && (x as int == 87 + d || x as int == 55 + d)
  }

  predicate Hex3(t: string, n: nat) {
    |t| == 3 && HexChar(t[0], n / 256) && HexChar(t[1], n / 16 % 16) && HexChar(t[2], n % 16)
  }

  /** Four hexadecimal digits; or, beyond RFC 8259, a plus sign and three. */
  predicate HexForm(t: string, n: nat, strict: bool) {
    |t| == 4 && ((HexChar(t[0], n / 4096) && Hex3(t[1..], n % 4096)) || (!strict && t[0] == '+' && Hex3(t[1..], n)))
  }

  /** The letter after a backslash, and the code the two stand for. */
  predicate ShortForm(x: char, n: nat) {
    || (x == '\"' && n == 0x22) || (x == '\\' && n == 0x5C) || (x == '/' && n == 0x2F)
    || (x == 'b' && n == 0x08) || (x == 'f' && n == 0x0C) || (x == 'n' && n == 0x0A)
    || (x == 'r' && n == 0x0D) || (x == 't' && n == 0x09)
  }

  /** `t` may stand for the code between quotes: the character itself, a two-character escape, or a numbered one. */
  predicate Spelling(t: string, n: nat, strict: bool) {
    || (|t| == 1 && t[0] as int == n && n >= 0x20 && t[0] != '\"' && t[0] != '\\')
    || (|t| == 2 && t[0] == '\\' && ShortForm(t[1], n))
    || (|t| == 6 && t[0] == '\\' && t[1] == 'u' && HexForm(t[2..], n, strict))
  }

  predicate High(n: nat) { 0xD800 <= n < 0xDC00 }
  predicate Low(n: nat) { 0xDC00 <= n < 0xE000 }
  predicate Scalar(n: nat) { n < 0xD800 || 0xE000 <= n < 0x11_0000 }

  /** High and low halves of a supplementary code point. */
  function HighHalf(c: nat): nat requires c >= 0x1_0000 { 0xD800 + (c - 0x1_0000) / 1024 }
  function LowHalf(c: nat): nat requires c >= 0x1_0000 { 0xDC00 + (c - 0x1_0000) % 1024 }

  /** The supplementary character with these halves. */
  function PairValue(hi: nat, lo: nat): (c: char)
    requires High(hi) && Low(lo)
    ensures c as int >= 0x1_0000 && HighHalf(c as int) == hi && LowHalf(c as int) == lo
  {
    (0x1_0000 + (hi - 0xD800) * 1024 + (lo - 0xDC00)) as char
  }

  function CharsText(xs: seq<Spelled>): string {
    if xs == [] then "" else xs[0].text + CharsText(xs[1..])
  }

  /** A high half is followed by a low one. */
  predicate Pair(xs: seq<Spelled>) {
    |xs| > 1 && High(xs[0].code) && Low(xs[1].code)
  }

  /** The string; nothing when a surrogate escape is unpaired. */
  function CharsValue(xs: seq<Spelled>): Option<string>
    decreases |xs|
  {
    if xs == [] then Some("")
    else if Pair(xs) then Prepend(PairValue(xs[0].code, xs[1].code), CharsValue(xs[2..]))
    else if Scalar(xs[0].code) then Prepend(xs[0].code as char, CharsValue(xs[1..]))
    else None
  }

  function Prepend(c: char, s: Option<string>): Option<string> {
    match s
    case Some(t) => Some([c] + t)
    case None => None
  }

  /** Every surrogate escape is half of a pair of neighbours. */
  predicate PairedChars(xs: seq<Spelled>) {
    forall k :: 0 <= k < |xs| ==> PairedAt(xs, k)
  }

  predicate PairedAt(xs: seq<Spelled>, k: nat)
    requires k < |xs|
  {
    && (High(xs[k].code) ==> k + 1 < |xs| && Low(xs[k + 1].code))
    && (Low(xs[k].code) ==> k > 0 && High(xs[k - 1].code))
  }

  predicate LegalChars(xs: seq<Spelled>, strict: bool) {
    forall x :: x in xs ==> Spelling(x.text, x.code, strict)
  }

  function Quoted(xs: seq<Spelled>): string {
    "\"" + (CharsText(xs) + "\"")
  }

  // ---------------------------------------------------------------- numbers

  datatype Exponent = Exponent(e: char, sign: string, digits: string)

  /** A minus sign, integer digits, and a fraction and an exponent where there is one. */
  datatype Numeral = Numeral(neg: bool, digits: string, fraction: Option<string>, exponent: Option<Exponent>)

  function SignText(n: Numeral): string { if n.neg then "-" else "" }

  function FractionText(n: Numeral): string {
    match n.fraction
    case None => ""
    case Some(ds) => "." + ds
  }

  function ExponentText(n: Numeral): string {
    match n.exponent
    case None => ""
    case Some(e) => [e.e] + (e.sign + e.digits)
  }

  function NumeralText(n: Numeral): string {
    SignText(n) + (n.digits + (FractionText(n) + ExponentText(n)))
  }

  /** RFC 8259 wants digits in every part; the parser leaves that to the library routines, after any minus or digit. */
  predicate LegalNumeral(n: Numeral, strict: bool) {
    && AllDigits(n.digits) && (n.digits != "" && n.digits[0] == '0' ==> n.digits == "0")
    && (strict || !n.neg ==> n.digits != "")
    && (n.fraction.Some? ==> AllDigits(n.fraction.value) && (strict ==> n.fraction.value != ""))
    && (n.exponent.Some? ==> var e := n.exponent.value;
          && (e.e == 'e' || e.e == 'E') && (e.sign == "" || e.sign == "+" || e.sign == "-")
          && AllDigits(e.digits) && (strict ==> e.digits != ""))
  }

  predicate IsInteger(n: Numeral) {
    n.fraction.None? && n.exponent.None?
  }

  /** The value a numeral is read as; nothing when it is outside its integer type or the library refuses it. */
  function NumeralValue(lib: FloatLib, n: Numeral): Option<Json>
    requires LegalNumeral(n, false)
  {
    if !IsInteger(n) then
      match lib.read(NumeralText(n))
      case Some(f) => Some(F64(f))
      case None => None
    else if n.digits == "" then None
    else
      var m := Magnitude(n.digits);
      if n.neg then if m <= 0x8000_0000_0000_0000 then Some(I64(-(m as int))) else None
      else if m < 0x1_0000_0000_0000_0000 then Some(U64(m)) else None
  }

  // ---------------------------------------------------------------- values

  /** `tail` is the white space of an empty container, or that after a trailing comma. */
  datatype Tree =
    | NullWord
    | BoolWord(b: bool)
    | Number(n: Numeral)
    | Text(chars: seq<Spelled>)
    | List(items: seq<Item>, comma: bool, tail: string)
    | Record(members: seq<Member>, comma: bool, tail: string)

  datatype Item = Item(before: string, value: Tree, after: string)

  datatype Member =
    Member(before: string, key: seq<Spelled>, afterKey: string, beforeValue: string, value: Tree, after: string)

  function Tail(comma: bool, tail: string): string {
    if comma then "," + tail else tail
  }

  predicate LegalTail(empty: bool, comma: bool, tail: string, strict: bool) {
    && Blank(tail) && (empty || strict ==> !comma) && (!empty && !comma ==> tail == "")
  }

  function Unparse(t: Tree): string
    decreases t, 0
  {
    match t
    case NullWord => "null"
    case BoolWord(b) => if b then "true" else "false"
    case Number(n) => NumeralText(n)
    case Text(chars) => Quoted(chars)
    case List(items, comma, tail) =>
      if items == [] then "[" + (tail + "]")
      else "[" + (items[0].before + (ItemsText(items) + (Tail(comma, tail) + "]")))
    case Record(members, comma, tail) =>
      if members == [] then "{" + (tail + "}")
      else "{" + (members[0].before + (MembersText(members) + (Tail(comma, tail) + "}")))
  }

  /** From the first value on: the white space before it is left out. */
  function ItemsText(items: seq<Item>): string
    decreases items, 1
  {
    if items == [] then ""
    else Unparse(items[0].value) + (items[0].after + MoreItems(items[1..]))
  }

  function MoreItems(items: seq<Item>): string
    decreases items, 2
  {
    if items == [] then "" else "," + (items[0].before + ItemsText(items))
  }

  /** A member without the white space around it. */
  function MemberText(m: Member): string
    decreases m, 1
  {
    Quoted(m.key) + (m.afterKey + (":" + (m.beforeValue + Unparse(m.value))))
  }

  function MembersText(ms: seq<Member>): string
    decreases ms, 1
  {
    if ms == [] then ""
    else MemberText(ms[0]) + (ms[0].after + MoreMembers(ms[1..]))
  }

  function MoreMembers(ms: seq<Member>): string
    decreases ms, 2
  {
    if ms == [] then "" else "," + (ms[0].before + MembersText(ms))
  }

  predicate Legal(t: Tree, strict: bool)
    decreases t
  {
    match t
    case Number(n) => LegalNumeral(n, strict)
    case Text(chars) => LegalChars(chars, strict)
    case List(items, comma, tail) =>
      && LegalTail(items == [], comma, tail, strict)
      && forall it :: it in items ==> Blank(it.before) && Legal(it.value, strict) && Blank(it.after)
    case Record(members, comma, tail) =>
      && LegalTail(members == [], comma, tail, strict)
      && forall m :: m in members ==>
           && Blank(m.before) && LegalChars(m.key, strict) && Blank(m.afterKey) && Blank(m.beforeValue)
           && Legal(m.value, strict) && Blank(m.after)
    case _ => true
  }

  /** How many containers enclose the deepest value, members that will be overwritten included. */
  function TreeDepth(t: Tree): nat
    decreases t, 0
  {
    match t
    case List(items, _, _) => ItemsDepth(items)
    case Record(members, _, _) => MembersDepth(members)
    case _ => 0
  }

  function ItemsDepth(items: seq<Item>): nat
    decreases items, 1
  {
    if items == [] then 0 else Max(1 + TreeDepth(items[0].value), ItemsDepth(items[1..]))
  }

  function MembersDepth(ms: seq<Member>): nat
    decreases ms, 1
  {
    if ms == [] then 0 else Max(1 + TreeDepth(ms[0].value), MembersDepth(ms[1..]))
  }

  /** The value a tree stands for; nothing when some number or string in it has none. */
  function Denote(lib: FloatLib, t: Tree): Option<Json>
    requires Legal(t, false)
    decreases t, 0
  {
    match t
    case NullWord => Some(Null)
    case BoolWord(b) => Some(Bool(b))
    case Number(n) => NumeralValue(lib, n)
    case Text(chars) =>
      (match CharsValue(chars)
       case Some(s) => Some(Str(s))
       case None => None)
    case List(items, _, _) =>
      (match DenoteItems(lib, items)
       case Some(vs) => Some(Array(vs))
       case None => None)
    case Record(members, _, _) =>
      (match DenoteMembers(lib, members)
       case Some(es) => Some(Object(Fold([], es)))
       case None => None)
  }

  function DenoteItems(lib: FloatLib, items: seq<Item>): Option<seq<Json>>
    requires forall it :: it in items ==> Legal(it.value, false)
    decreases items, 1
  {
    if items == [] then Some([])
    else
      assert items[0] in items;
      match (Denote(lib, items[0].value), DenoteItems(lib, items[1..]))
      case (Some(v), Some(rest)) => Some([v] + rest)
      case _ => None
  }

  function DenoteMembers(lib: FloatLib, ms: seq<Member>): Option<seq<Entry>>
    requires forall m :: m in ms ==> Legal(m.value, false)
    decreases ms, 1
  {
    if ms == [] then Some([])
    else
      assert ms[0] in ms;
      match (CharsValue(ms[0].key), Denote(lib, ms[0].value), DenoteMembers(lib, ms[1..]))
      case (Some(key), Some(v), Some(rest)) => Some([Entry(key, v)] + rest)
      case _ => None
  }

  /** What RFC 8259 allows, the parser's grammar allows. */
  lemma {:induction false} StrictIsLegal(t: Tree)
    requires Legal(t, true)
    ensures Legal(t, false)
    decreases t
  {
    match t
    case List(items, _, _) =>
      forall it | it in items ensures Legal(it.value, false) { StrictIsLegal(it.value); }
    case Record(members, _, _) =>
      forall m | m in members ensures Legal(m.value, false) { StrictIsLegal(m.value); }
    case _ =>
  }

  // ---------------------------------------------------------------- which trees stand for a value

  /** Every number in the tree has a value. */
  predicate NumbersFit(lib: FloatLib, t: Tree)
    requires Legal(t, false)
    decreases t
  {
    match t
    case Number(n) => NumeralValue(lib, n).Some?
    case List(items, _, _) => forall it :: it in items ==> NumbersFit(lib, it.value)
    case Record(members, _, _) => forall m :: m in members ==> NumbersFit(lib, m.value)
    case _ => true
  }

  /** Every string and key in the tree has its surrogate escapes in pairs. */
  predicate Paired(t: Tree)
    decreases t
  {
    match t
    case Text(chars) => PairedChars(chars)
    case List(items, _, _) => forall it :: it in items ==> Paired(it.value)
    case Record(members, _, _) => forall m :: m in members ==> PairedChars(m.key) && Paired(m.value)
    case _ => true
  }

  lemma LegalCode(x: Spelled)
    requires Spelling(x.text, x.code, false)
    ensures High(x.code) || Low(x.code) || Scalar(x.code)
  {
  }

  /** Complete characters at the front make no difference to the rest. */
  lemma PairedRest(xs: seq<Spelled>, n: nat)
    requires 0 < n <= |xs| && !High(xs[n - 1].code) && forall k :: 0 <= k < n ==> PairedAt(xs, k)
    ensures PairedChars(xs) <==> PairedChars(xs[n..])
  {
    var ys := xs[n..];
    hide PairedAt;
    forall k | n <= k < |xs| ensures PairedAt(xs, k) <==> PairedAt(ys, k - n) {
      PairedShift(xs, n, k);
    }
    if PairedChars(xs) {
      forall j | 0 <= j < |ys| ensures PairedAt(ys, j) {
        PairedShift(xs, n, n + j);
      }
    }
  }

  lemma PairedShift(xs: seq<Spelled>, n: nat, k: nat)
    requires 0 < n <= k < |xs| && !High(xs[n - 1].code)
    ensures PairedAt(xs, k) <==> PairedAt(xs[n..], k - n)
  {
  }

  /** A string is denoted exactly when its surrogate escapes are paired. */
  lemma {:induction false} CharsDenoted(xs: seq<Spelled>)
    requires LegalChars(xs, false)
    ensures CharsValue(xs).Some? <==> PairedChars(xs)
    decreases |xs|
  {
    hide Spelling;
    if xs != [] {
      LegalCode(xs[0]);
      if Pair(xs) {
        CharsDenoted(xs[2..]);
        PairedRest(xs, 2);
      } else if Scalar(xs[0].code) {
        CharsDenoted(xs[1..]);
        PairedRest(xs, 1);
      } else {
        assert !PairedAt(xs, 0);
      }
    }
  }

  /** A tree stands for a value exactly when its numbers do and its surrogate escapes are paired. */
  lemma {:induction false} DenotedExactly(lib: FloatLib, t: Tree)
    requires Legal(t, false)
    ensures Denote(lib, t).Some? <==> NumbersFit(lib, t) && Paired(t)
    decreases t, 0
  {
    hide LegalChars, LegalNumeral, NumeralValue, PairedChars, CharsValue;
    match t
    case Text(chars) => CharsDenoted(chars);
    case List(items, _, _) => ItemsDenoted(lib, items);
    case Record(members, _, _) => MembersDenoted(lib, members);
    case _ =>
  }

  lemma {:induction false} ItemsDenoted(lib: FloatLib, items: seq<Item>)
    requires forall it :: it in items ==> Legal(it.value, false)
    ensures DenoteItems(lib, items).Some? <==> forall it :: it in items ==> NumbersFit(lib, it.value) && Paired(it.value)
    decreases items, 1
  {
    hide Denote, Legal, NumbersFit, Paired;
    if items != [] {
      assert items[0] in items && items == [items[0]] + items[1..];
      DenotedExactly(lib, items[0].value);
      ItemsDenoted(lib, items[1..]);
    }
  }

  lemma {:induction false} MembersDenoted(lib: FloatLib, ms: seq<Member>)
    requires forall m :: m in ms ==> Legal(m.value, false) && LegalChars(m.key, false)
    ensures DenoteMembers(lib, ms).Some?
       <==> forall m :: m in ms ==> NumbersFit(lib, m.value) && PairedChars(m.key) && Paired(m.value)
    decreases ms, 1
  {
    hide Denote, Legal, NumbersFit, Paired, LegalChars, PairedChars, CharsValue;
    if ms != [] {
      assert ms[0] in ms && ms == [ms[0]] + ms[1..];
      CharsDenoted(ms[0].key);
      DenotedExactly(lib, ms[0].value);
      MembersDenoted(lib, ms[1..]);
    }
  }
}
