/** Every text of a legal tree, through the parser. */
module JsonTrees {
  import opened Common
  import opened JsonValue
  import opened JsonPrint
  import opened JsonGrammar
  import opened JsonSyntax
  import opened JsonReading
  import Utf8

  // ---------------------------------------------------------------- the first fault

  /** The first thing in the text of a tree, `d` containers down, that makes the parser refuse it. */
  function Fault(lib: FloatLib, t: Tree, d: nat): Option<ErrorKind>
    requires Legal(t, false)
    decreases t, 0
  {
    if d > 512 then Some(DepthExceeded)
    else
      match t
      case Number(n) => if NumeralValue(lib, n).None? then Some(BadNumber) else None
      case Text(chars) => CharsFault(chars)
      case List(items, _, _) => ItemsFault(lib, items, d + 1)
      case Record(members, _, _) => MembersFault(lib, members, d + 1)
      case _ => None
  }

  function ItemsFault(lib: FloatLib, items: seq<Item>, d: nat): Option<ErrorKind>
    requires forall it :: it in items ==> Legal(it.value, false)
    decreases items, 1
  {
    if items == [] then None
    else
      assert items[0] in items;
      if Fault(lib, items[0].value, d).Some? then Fault(lib, items[0].value, d) else ItemsFault(lib, items[1..], d)
  }

  function MemberFault(lib: FloatLib, m: Member, d: nat): Option<ErrorKind>
    requires Legal(m.value, false)
    decreases m, 1
  {
    if CharsFault(m.key).Some? then CharsFault(m.key) else Fault(lib, m.value, d)
  }

  function MembersFault(lib: FloatLib, ms: seq<Member>, d: nat): Option<ErrorKind>
    requires forall m :: m in ms ==> Legal(m.value, false)
    decreases ms, 1
  {
    if ms == [] then None
    else
      assert ms[0] in ms;
      if MemberFault(lib, ms[0], d).Some? then MemberFault(lib, ms[0], d) else MembersFault(lib, ms[1..], d)
  }

  lemma {:induction false} CharsFaultExactly(xs: seq<Spelled>)
    ensures CharsFault(xs).None? <==> CharsValue(xs).Some?
    decreases |xs|
  {
    hide PairValue;
    if xs != [] {
      if Pair(xs) {
        CharsFaultExactly(xs[2..]);
      } else {
        CharsFaultExactly(xs[1..]);
      }
    }
  }

  /**
   A tree has no fault exactly when it stands for a value and is not too deep; and when it is only too deep, that is the fault.
   */
  lemma {:induction false} FaultExactly(lib: FloatLib, t: Tree, d: nat)
    requires Legal(t, false)
    ensures Fault(lib, t, d).None? <==> Denote(lib, t).Some? && d + TreeDepth(t) <= 512
    ensures Denote(lib, t).Some? && d + TreeDepth(t) > 512 ==> Fault(lib, t, d) == Some(DepthExceeded)
    decreases t, 0
  {
    hide LegalChars, LegalNumeral, NumeralValue, CharsFault, CharsValue, DenoteItems, DenoteMembers, ItemsFault, MembersFault;
    match t
    case Text(chars) => CharsFaultExactly(chars);
    case List(items, _, _) => ItemsFaultExactly(lib, items, d + 1);
    case Record(members, _, _) => MembersFaultExactly(lib, members, d + 1);
    case _ =>
  }

  lemma {:induction false} ItemsFaultExactly(lib: FloatLib, items: seq<Item>, d: nat)
    requires d > 0 && forall it :: it in items ==> Legal(it.value, false)
    ensures ItemsFault(lib, items, d).None? <==>
            DenoteItems(lib, items).Some? && (items == [] || d - 1 + ItemsDepth(items) <= 512)
    ensures DenoteItems(lib, items).Some? && items != [] && d - 1 + ItemsDepth(items) > 512 ==>
              ItemsFault(lib, items, d) == Some(DepthExceeded)
    decreases items, 1
  {
    hide Denote, Legal, Fault, TreeDepth;
    if items != [] {
      assert items[0] in items && items == [items[0]] + items[1..];
      FaultExactly(lib, items[0].value, d);
      ItemsFaultExactly(lib, items[1..], d);
    }
  }

  lemma {:induction false} MembersFaultExactly(lib: FloatLib, ms: seq<Member>, d: nat)
    requires d > 0 && forall m :: m in ms ==> Legal(m.value, false)
    ensures MembersFault(lib, ms, d).None? <==>
            DenoteMembers(lib, ms).Some? && (ms == [] || d - 1 + MembersDepth(ms) <= 512)
    ensures DenoteMembers(lib, ms).Some? && ms != [] && d - 1 + MembersDepth(ms) > 512 ==>
              MembersFault(lib, ms, d) == Some(DepthExceeded)
    decreases ms, 1
  {
    hide Denote, Legal, Fault, TreeDepth, CharsFault, CharsValue;
    if ms != [] {
      assert ms[0] in ms && ms == [ms[0]] + ms[1..];
      CharsFaultExactly(ms[0].key);
      FaultExactly(lib, ms[0].value, d);
      MembersFaultExactly(lib, ms[1..], d);
    }
  }

  // ---------------------------------------------------------------- around a value

  lemma NumeralHead(b: seq<byte>, i: nat, n: Numeral)
    requires LegalNumeral(n, false) && Spells(b, i, NumeralText(n))
    ensures i < |b| && (b[i] == '-' as int || IsDigit(b[i]))
  {
    hide Utf8.Encode, FractionText, ExponentText;
    NumeralParts(b, i, n);
    if n.neg {
      SpellsChar(b, i, '-');
    } else {
      SpellsNothing(b, i);
      SpellsDigits(b, i, n.digits);
    }
  }

  /** A value starts with neither white space nor a closing bracket. */
  lemma TreeHead(b: seq<byte>, i: nat, t: Tree)
    requires Legal(t, false) && Spells(b, i, Unparse(t))
    ensures i < |b| && !IsSpace(b[i]) && b[i] != ']' as int && b[i] != '}' as int
  {
    hide Utf8.Encode, ItemsText, MembersText, CharsText, LegalNumeral, NumeralText;
    if t.Number? {
      NumeralHead(b, i, t.n);
    } else {
      var u := Unparse(t);
      assert u == [u[0]] + u[1..];
      SpellsHead(b, i, u[0], u[1..]);
    }
  }

  /** White space after a value, then a comma or a closing bracket. */
  lemma StopsAfter(b: seq<byte>, i: nat, after: string, c: char)
    requires Blank(after) && Spells(b, i, after) && Sees(b, End(i, after), c) && (c == ',' || c == ']' || c == '}')
    ensures Stops(b, i) && SkipSpace(b, i) == End(i, after)
  {
    hide Utf8.Encode, SkipSpace;
    SkipsBlank(b, i, after);
    StopsBlank(b, i, after);
  }

  lemma StopsBlank(b: seq<byte>, i: nat, after: string)
    requires Blank(after) && Spells(b, i, after)
    requires after == "" ==> Stops(b, i)
    ensures Stops(b, i)
  {
    hide Utf8.Encode;
    if after != "" {
      assert after == [after[0]] + after[1..];
      assert after[0] in after;
      SpellsHead(b, i, after[0], after[1..]);
    }
  }

  // ---------------------------------------------------------------- values

  lemma {:induction false} ReadsTree(lib: FloatLib, b: seq<byte>, i: nat, d: nat, t: Tree)
    requires Legal(t, false) && Spells(b, i, Unparse(t)) && Stops(b, End(i, Unparse(t)))
    ensures Reads(ValueAt(lib, b, i, d), Fault(lib, t, d), Denote(lib, t), End(i, Unparse(t)))
    decreases t, 1
  {
    hide Utf8.Encode, ObjectAt, ArrayAt, StringAt, NumberAt, SkipSpace, Unparse, Denote, Legal;
    if d <= 512 {
      TreeHead(b, i, t);
      SkipsNothing(b, i);
      match t
      case List(_, _, _) => ReadsList(lib, b, i, d, t);
      case Record(_, _, _) => ReadsRecord(lib, b, i, d, t);
      case _ => ReadsLeaf(lib, b, i, d, t);
    }
  }

  lemma ReadsLeaf(lib: FloatLib, b: seq<byte>, i: nat, d: nat, t: Tree)
    requires !t.List? && !t.Record? && d <= 512 && Legal(t, false)
    requires Spells(b, i, Unparse(t)) && Stops(b, End(i, Unparse(t))) && SkipSpace(b, i) == i
    ensures Reads(ValueAt(lib, b, i, d), Fault(lib, t, d), Denote(lib, t), End(i, Unparse(t)))
  {
    hide Utf8.Encode, ObjectAt, ArrayAt, StringAt, NumberAt, SkipSpace, LegalNumeral, NumeralText, NumeralValue;
    hide Quoted, LegalChars;
    match t
    case NullWord => ReadsLiteral(b, i, "null", NULL_TEXT);
    case BoolWord(x) => ReadsLiteral(b, i, if x then "true" else "false", if x then TRUE_TEXT else FALSE_TEXT);
    case Number(n) => ReadsNumeral(lib, b, i, n);
    case Text(chars) => ReadsString(b, i, chars);
  }

  lemma ReadsLiteral(b: seq<byte>, i: nat, t: string, text: seq<byte>)
    requires Spells(b, i, t) && Ascii(t)
    requires |text| == |t| > 0 && forall k :: 0 <= k < |t| ==> text[k] == t[k] as int
    ensures End(i, t) == i + |text| && b[i..i + |text|] == text && Sees(b, i, t[0])
  {
    hide Utf8.Encode;
    SpellsAscii(b, i, t);
    assert b[i + 0] == t[0] as int;
  }

  // ---------------------------------------------------------------- arrays

  ghost predicate LegalItems(items: seq<Item>) {
    forall it :: it in items ==> Blank(it.before) && Legal(it.value, false) && Blank(it.after)
  }

  lemma ReadsList(lib: FloatLib, b: seq<byte>, i: nat, d: nat, t: Tree)
    requires t.List? && Legal(t, false) && d <= 512 && Spells(b, i, Unparse(t))
    ensures Sees(b, i, '[')
    ensures Reads(ArrayAt(lib, b, i, d), Fault(lib, t, d), Denote(lib, t), End(i, Unparse(t)))
    decreases t, 0
  {
    hide Utf8.Encode, ItemsAt, SkipSpace, ItemsText, Blank, DenoteItems, ItemsFault;
    if t.items == [] {
      SpellsHead(b, i, '[', t.tail + "]");
      SpellsConcat(b, i + 1, t.tail, "]");
      SpellsChar(b, End(i + 1, t.tail), ']');
      SkipsBlank(b, i + 1, t.tail);
      NothingDenoted(lib);
    } else {
      var first := t.items[0];
      assert first in t.items;
      var close := Tail(t.comma, t.tail) + "]";
      var rest := ItemsText(t.items) + close;
      SpellsHead(b, i, '[', first.before + rest);
      SpellsConcat(b, i + 1, first.before, rest);
      var j := End(i + 1, first.before);
      ItemsHead(b, j, t.items, close);
      SkipsBlank(b, i + 1, first.before);
      ReadsItems(lib, b, j, d, t.items, t.comma, t.tail);
    }
  }

  lemma NothingDenoted(lib: FloatLib)
    ensures DenoteItems(lib, []) == Some([]) && forall d :: ItemsFault(lib, [], d) == None
    ensures DenoteMembers(lib, []) == Some([]) && forall d :: MembersFault(lib, [], d) == None
  {
  }

  lemma ItemsHead(b: seq<byte>, i: nat, items: seq<Item>, close: string)
    requires items != [] && LegalItems(items) && Spells(b, i, ItemsText(items) + close)
    ensures i < |b| && !IsSpace(b[i]) && b[i] != ']' as int
  {
    hide Utf8.Encode, Unparse, Legal, MoreItems;
    SpellsConcat(b, i, ItemsText(items), close);
    SpellsConcat(b, i, Unparse(items[0].value), items[0].after + MoreItems(items[1..]));
    TreeHead(b, i, items[0].value);
  }

  /** Where the first value of a list and what follows it lie. */
  lemma FirstItem(b: seq<byte>, i: nat, items: seq<Item>, close: string)
    requires items != [] && Spells(b, i, ItemsText(items) + close)
    ensures var e := End(i, Unparse(items[0].value)); var k := End(e, items[0].after);
            && Spells(b, i, Unparse(items[0].value)) && Spells(b, e, items[0].after) && Spells(b, k, MoreItems(items[1..]) + close)
            && End(k, MoreItems(items[1..]) + close) == End(i, ItemsText(items) + close)
  {
    hide Utf8.Encode, Unparse, MoreItems;
    var first, after, more := Unparse(items[0].value), items[0].after, MoreItems(items[1..]);
    Regroup(first, after + more, close);
    Regroup(after, more, close);
    SpellsConcat(b, i, first, after + (more + close));
    SpellsConcat(b, End(i, first), after, more + close);
  }

  lemma CommaFirst(before: string, rest: string, close: string)
    ensures "," + (before + rest) + close == [','] + (before + (rest + close))
  {
    assert (before + rest) + close == before + (rest + close);
    assert "," == [','];
  }

  /** A comma, white space and more text. */
  lemma PastComma(b: seq<byte>, k: nat, before: string, rest: string, close: string)
    requires Spells(b, k, "," + (before + rest) + close)
    ensures Sees(b, k, ',') && Spells(b, k + 1, before) && Spells(b, End(k + 1, before), rest + close)
    ensures End(End(k + 1, before), rest + close) == End(k, "," + (before + rest) + close)
  {
    hide Utf8.Encode;
    CommaFirst(before, rest, close);
    SpellsHead(b, k, ',', before + (rest + close));
    SpellsConcat(b, k + 1, before, rest + close);
  }

  /** Where the next value lies, past the comma. */
  lemma NextItem(b: seq<byte>, k: nat, items: seq<Item>, close: string)
    requires items != [] && LegalItems(items) && Spells(b, k, MoreItems(items) + close)
    ensures Sees(b, k, ',') && k + 1 <= |b|
    ensures var m := End(k + 1, items[0].before);
            && SkipSpace(b, k + 1) == m && !Sees(b, m, ']') && Spells(b, m, ItemsText(items) + close)
            && End(m, ItemsText(items) + close) == End(k, MoreItems(items) + close)
  {
    hide Utf8.Encode, ItemsText, SkipSpace, Legal, Blank, Spells, End;
    var before := items[0].before;
    PastComma(b, k, before, ItemsText(items), close);
    ItemsHead(b, End(k + 1, before), items, close);
    SkipsBlank(b, k + 1, before);
  }

  /** The end of a list: a bracket, or a comma, white space and a bracket. */
  lemma ListEnd(b: seq<byte>, k: nat, comma: bool, tail: string, close: char)
    requires LegalTail(false, comma, tail, false) && Spells(b, k, Tail(comma, tail) + [close]) && (close == ']' || close == '}')
    ensures Sees(b, k, if comma then ',' else close)
    ensures var c := if comma then End(k + 1, tail) else k;
            && Sees(b, c, close) && (comma ==> k + 1 <= |b| && SkipSpace(b, k + 1) == c)
            && End(k, Tail(comma, tail) + [close]) == c + 1
  {
    hide Utf8.Encode, SkipSpace, Blank;
    if comma {
      assert "," + tail + [close] == [','] + (tail + [close]);
      SpellsHead(b, k, ',', tail + [close]);
      SpellsConcat(b, k + 1, tail, [close]);
      SpellsChar(b, End(k + 1, tail), close);
      SkipsBlank(b, k + 1, tail);
    } else {
      assert tail + [close] == [close];
      SpellsChar(b, k, close);
    }
  }

  lemma {:induction false} ReadsItems(lib: FloatLib, b: seq<byte>, i: nat, d: nat, items: seq<Item>, comma: bool, tail: string)
    requires items != [] && LegalItems(items) && LegalTail(false, comma, tail, false)
    requires Spells(b, i, ItemsText(items) + (Tail(comma, tail) + "]"))
    ensures Reads(ItemsAt(lib, b, i, d), ItemsFault(lib, items, d + 1), DenoteItems(lib, items),
                  End(i, ItemsText(items) + (Tail(comma, tail) + "]")))
    decreases items, 1
  {
    hide Utf8.Encode, ValueAt, ItemsAt, Unparse, ItemsText, MoreItems, Tail, LegalTail, SkipSpace, Denote;
    hide Fault, Legal, Spells, Blank;
    var close := Tail(comma, tail) + "]";
    var value, after := items[0].value, items[0].after;
    var e := End(i, Unparse(value));
    var k := End(e, after);
    FirstItem(b, i, items, close);
    if |items| == 1 {
      LastMore(items);
      assert "" + close == close;
      ListEnd(b, k, comma, tail, ']');
    } else {
      NextItem(b, k, items[1..], close);
      ReadsItems(lib, b, End(k + 1, items[1].before), d, items[1..], comma, tail);
    }
    StopsAfter(b, e, after, if |items| > 1 || comma then ',' else ']');
    ReadsTree(lib, b, i, d + 1, value);
    var v := ValueAt(lib, b, i, d + 1);
    NothingDenoted(lib);
    assert v.Ok? ==> [v.value] + [] == [v.value];
    if v.Err? {
      ItemsError(lib, b, i, d);
    } else if |items| > 1 {
      ItemsMore(lib, b, i, d, v.value, e, End(k + 1, items[1].before));
    } else if comma {
      ItemsTrailing(lib, b, i, d, v.value, e);
    } else {
      ItemsLast(lib, b, i, d, v.value, e);
    }
  }

  lemma LastMore(items: seq<Item>)
    requires |items| == 1
    ensures items[1..] == [] && MoreItems(items[1..]) == ""
  {
  }

  // ---------------------------------------------------------------- objects

  ghost predicate LegalMember(m: Member) {
    && Blank(m.before) && LegalChars(m.key, false) && Blank(m.afterKey) && Blank(m.beforeValue)
    && Legal(m.value, false) && Blank(m.after)
  }

  ghost predicate LegalMembers(ms: seq<Member>) {
    forall m :: m in ms ==> LegalMember(m)
  }

  lemma ReadsRecord(lib: FloatLib, b: seq<byte>, i: nat, d: nat, t: Tree)
    requires t.Record? && Legal(t, false) && d <= 512 && Spells(b, i, Unparse(t))
    ensures Sees(b, i, '{')
    ensures Reads(ObjectAt(lib, b, i, d), Fault(lib, t, d), Denote(lib, t), End(i, Unparse(t)))
    decreases t, 0
  {
    hide Utf8.Encode, MembersAt, SkipSpace, MembersText, Blank, DenoteMembers, MembersFault, LegalChars;
    if t.members == [] {
      SpellsHead(b, i, '{', t.tail + "}");
      SpellsConcat(b, i + 1, t.tail, "}");
      SpellsChar(b, End(i + 1, t.tail), '}');
      SkipsBlank(b, i + 1, t.tail);
      NothingDenoted(lib);
    } else {
      var first := t.members[0];
      assert first in t.members;
      var close := Tail(t.comma, t.tail) + "}";
      var rest := MembersText(t.members) + close;
      SpellsHead(b, i, '{', first.before + rest);
      SpellsConcat(b, i + 1, first.before, rest);
      var j := End(i + 1, first.before);
      MembersHead(b, j, t.members, close);
      SkipsBlank(b, i + 1, first.before);
      ReadsMembers(lib, b, j, d, t.members, t.comma, t.tail);
    }
  }

  lemma MembersHead(b: seq<byte>, i: nat, ms: seq<Member>, close: string)
    requires ms != [] && Spells(b, i, MembersText(ms) + close)
    ensures Sees(b, i, '\"')
  {
    hide Utf8.Encode, Unparse, MoreMembers, CharsText;
    SpellsConcat(b, i, MembersText(ms), close);
    SpellsConcat(b, i, MemberText(ms[0]), ms[0].after + MoreMembers(ms[1..]));
    var u := MemberText(ms[0]);
    assert u == ['\"'] + u[1..];
    SpellsHead(b, i, '\"', u[1..]);
  }

  lemma FirstMember(b: seq<byte>, i: nat, ms: seq<Member>, close: string)
    requires ms != [] && Spells(b, i, MembersText(ms) + close)
    ensures var e := End(i, MemberText(ms[0])); var k := End(e, ms[0].after);
            && Spells(b, i, MemberText(ms[0])) && Spells(b, e, ms[0].after) && Spells(b, k, MoreMembers(ms[1..]) + close)
            && End(k, MoreMembers(ms[1..]) + close) == End(i, MembersText(ms) + close)
  {
    hide Utf8.Encode, MemberText, MoreMembers;
    var first, after, more := MemberText(ms[0]), ms[0].after, MoreMembers(ms[1..]);
    Regroup(first, after + more, close);
    Regroup(after, more, close);
    SpellsConcat(b, i, first, after + (more + close));
    SpellsConcat(b, End(i, first), after, more + close);
  }

  lemma NextMember(b: seq<byte>, k: nat, ms: seq<Member>, close: string)
    requires ms != [] && LegalMembers(ms) && Spells(b, k, MoreMembers(ms) + close)
    ensures Sees(b, k, ',') && k + 1 <= |b|
    ensures var m := End(k + 1, ms[0].before);
            && SkipSpace(b, k + 1) == m && !Sees(b, m, '}') && Spells(b, m, MembersText(ms) + close)
            && End(m, MembersText(ms) + close) == End(k, MoreMembers(ms) + close)
  {
    hide Utf8.Encode, MembersText, SkipSpace, Legal, LegalChars, Blank, Spells, End;
    assert LegalMember(ms[0]);
    var before := ms[0].before;
    PastComma(b, k, before, MembersText(ms), close);
    MembersHead(b, End(k + 1, before), ms, close);
    SkipsBlank(b, k + 1, before);
  }

  /** Where the parts of a member lie. */
  lemma MemberParts(b: seq<byte>, i: nat, m: Member)
    requires Spells(b, i, MemberText(m))
    ensures var q := End(i, Quoted(m.key)); var c := End(q, m.afterKey); var v := End(c + 1, m.beforeValue);
            && Spells(b, i, Quoted(m.key)) && Spells(b, q, m.afterKey) && Sees(b, c, ':')
            && Spells(b, c + 1, m.beforeValue) && Spells(b, v, Unparse(m.value))
            && End(v, Unparse(m.value)) == End(i, MemberText(m))
  {
    hide Utf8.Encode, Quoted, Unparse;
    var value := m.beforeValue + Unparse(m.value);
    SpellsConcat(b, i, Quoted(m.key), m.afterKey + (":" + value));
    var q := End(i, Quoted(m.key));
    SpellsConcat(b, q, m.afterKey, ":" + value);
    SpellsHead(b, End(q, m.afterKey), ':', value);
    SpellsConcat(b, End(q, m.afterKey) + 1, m.beforeValue, Unparse(m.value));
  }

  /** White space before a value makes no difference, except to where a depth error is reported. */
  lemma ValueAfterBlank(lib: FloatLib, b: seq<byte>, i: nat, d: nat, blank: string)
    requires Blank(blank) && Spells(b, i, blank)
    requires End(i, blank) < |b| && !IsSpace(b[End(i, blank)])
    ensures d <= 512 ==> ValueAt(lib, b, i, d) == ValueAt(lib, b, End(i, blank), d)
    ensures d > 512 ==> ValueAt(lib, b, i, d) == Fail(i, DepthExceeded)
  {
    hide Utf8.Encode, SkipSpace, ObjectAt, ArrayAt, StringAt, NumberAt, Literal, Blank;
    SkipsBlank(b, i, blank);
    SkipsNothing(b, End(i, blank));
  }

  /** One member: the key, the colon and, one level deeper, the value. */
  lemma ReadsMember(lib: FloatLib, b: seq<byte>, i: nat, d: nat, m: Member)
    requires LegalMember(m) && Spells(b, i, MemberText(m)) && Stops(b, End(i, MemberText(m)))
    ensures Reads(MemberAt(lib, b, i, d), MemberFault(lib, m, d + 1),
                  if CharsValue(m.key).Some? && Denote(lib, m.value).Some?
                  then Some(Entry(CharsValue(m.key).value, Denote(lib, m.value).value)) else None,
                  End(i, MemberText(m)))
    decreases m, 2
  {
    hide Utf8.Encode, StringAt, ValueAt, SkipSpace, Unparse, MemberText, Quoted, Denote, Legal;
    hide LegalChars, Blank, Spells;
    MemberParts(b, i, m);
    ReadsString(b, i, m.key);
    SkipsNothing(b, i);
    var q := End(i, Quoted(m.key));
    var c := End(q, m.afterKey);
    SkipsBlank(b, q, m.afterKey);
    var v := End(c + 1, m.beforeValue);
    TreeHead(b, v, m.value);
    ValueAfterBlank(lib, b, c + 1, d + 1, m.beforeValue);
    ReadsTree(lib, b, v, d + 1, m.value);
  }

  lemma {:induction false} ReadsMembers(lib: FloatLib, b: seq<byte>, i: nat, d: nat, ms: seq<Member>, comma: bool, tail: string)
    requires ms != [] && LegalMembers(ms) && LegalTail(false, comma, tail, false)
    requires Spells(b, i, MembersText(ms) + (Tail(comma, tail) + "}"))
    ensures Reads(MembersAt(lib, b, i, d), MembersFault(lib, ms, d + 1), DenoteMembers(lib, ms),
                  End(i, MembersText(ms) + (Tail(comma, tail) + "}")))
    decreases ms, 1
  {
    hide Utf8.Encode, MemberAt, MembersAt, MemberText, MembersText, MoreMembers, Tail, LegalTail, SkipSpace;
    hide Denote, Fault;
    hide Legal, LegalChars, Spells, Blank, CharsValue;
    var close := Tail(comma, tail) + "}";
    var after := ms[0].after;
    var e := End(i, MemberText(ms[0]));
    var k := End(e, after);
    FirstMember(b, i, ms, close);
    if |ms| == 1 {
      LastMoreMembers(ms);
      assert "" + close == close;
      ListEnd(b, k, comma, tail, '}');
    } else {
      NextMember(b, k, ms[1..], close);
      ReadsMembers(lib, b, End(k + 1, ms[1].before), d, ms[1..], comma, tail);
    }
    assert LegalMember(ms[0]);
    StopsAfter(b, e, after, if |ms| > 1 || comma then ',' else '}');
    ReadsMember(lib, b, i, d, ms[0]);
    var v := MemberAt(lib, b, i, d);
    NothingDenoted(lib);
    assert v.Ok? ==> [v.value] + [] == [v.value];
    if v.Err? {
      MembersError(lib, b, i, d);
    } else if |ms| > 1 {
      MembersMore(lib, b, i, d, v.value, e, End(k + 1, ms[1].before));
    } else if comma {
      MembersTrailing(lib, b, i, d, v.value, e);
    } else {
      MembersLast(lib, b, i, d, v.value, e);
    }
  }

  lemma LastMoreMembers(ms: seq<Member>)
    requires |ms| == 1
    ensures ms[1..] == [] && MoreMembers(ms[1..]) == ""
  {
  }

  // ---------------------------------------------------------------- documents

  function DocumentText(lead: string, t: Tree, trail: string): string {
    lead + (Unparse(t) + trail)
  }

  /**
   The parser reads every text of every legal tree as the value it stands for, or refuses it with the error of the first fault
   in it.
   */
  lemma ReadsDocument(lib: FloatLib, lead: string, t: Tree, trail: string)
    requires Blank(lead) && Legal(t, false) && Blank(trail)
    ensures Reads(ParseText(lib, DocumentText(lead, t, trail)), Fault(lib, t, 0), Denote(lib, t),
                  |Utf8.Encode(DocumentText(lead, t, trail))|)
  {
    hide Utf8.Encode, ValueAt, Unparse, SkipSpace, Fault, Denote, Legal, Blank;
    var text := DocumentText(lead, t, trail);
    var b := Utf8.Encode(text);
    assert b[0..End(0, text)] == b;
    SpellsConcat(b, 0, lead, Unparse(t) + trail);
    var i := End(0, lead);
    SpellsConcat(b, i, Unparse(t), trail);
    var e := End(i, Unparse(t));
    TreeHead(b, i, t);
    SkipsBlank(b, 0, lead);
    SkipsBlank(b, e, trail);
    if trail == "" {
      SpellsNothing(b, e);
    }
    StopsBlank(b, e, trail);
    ReadsTree(lib, b, i, 0, t);
  }

  /**
   Every text the grammar of RFC 8259 derives is accepted exactly when it is nested at most 512 deep, each of its numbers has a
   value, and each of its surrogate escapes is half of a pair.
   */
  lemma StandardTextsAccepted(lib: FloatLib, lead: string, t: Tree, trail: string)
    requires Blank(lead) && Legal(t, true) && Blank(trail)
    ensures Legal(t, false)
    ensures ParseText(lib, DocumentText(lead, t, trail)).Ok?
       <==> TreeDepth(t) <= 512 && NumbersFit(lib, t) && Paired(t)
  {
    hide ParseText, Unparse, TreeDepth, Denote, Legal, Blank, Fault, NumbersFit, Paired;
    StrictIsLegal(t);
    ReadsDocument(lib, lead, t, trail);
    FaultExactly(lib, t, 0);
    DenotedExactly(lib, t);
  }

  /** Section 8.2 of RFC 8259 gives this text as one its grammar allows: an unpaired half of a surrogate pair. */
  lemma UnpairedSurrogateRefused(lib: FloatLib) returns (t: Tree)
    ensures Legal(t, true) && Legal(t, false) && Unparse(t) == "\"\\uDEAD\""
    ensures TreeDepth(t) == 0 && NumbersFit(lib, t) && !Paired(t)
    ensures var r := ParseText(lib, "\"\\uDEAD\""); r.Err? && r.error.kind == LoneLowSurrogate
  {
    var x := Spelled(0xDEAD, "\\uDEAD");
    t := Text([x]);
    LoneTree(x);
    hide ParseText, Legal, Unparse, Blank, DocumentText, Fault;
    StrictIsLegal(t);
    NothingIsBlank();
    Alone(t);
    ReadsDocument(lib, "", t, "");
    LoneFault(lib, x);
    assert !PairedAt([x], 0);
  }

  lemma LoneTree(x: Spelled)
    requires x == Spelled(0xDEAD, "\\uDEAD")
    ensures Legal(Text([x]), true) && Unparse(Text([x])) == "\"\\uDEAD\""
  {
    assert x.text[2..] == "DEAD" && "DEAD"[1..] == "EAD";
    assert Spelling(x.text, x.code, true);
    hide Spelling;
    OneChar(x);
  }

  lemma LoneFault(lib: FloatLib, x: Spelled)
    requires Low(x.code) && Legal(Text([x]), false)
    ensures Fault(lib, Text([x]), 0) == Some(LoneLowSurrogate)
  {
    hide Legal;
  }

  lemma OneChar(x: Spelled)
    ensures CharsText([x]) == x.text
    ensures Scalar(x.code) ==> CharsValue([x]) == Some([x.code as char])
  {
    assert [x][1..] == [];
    assert x.text + "" == x.text;
    assert Scalar(x.code) ==> [x.code as char] + "" == [x.code as char];
  }

  lemma NothingIsBlank()
    ensures Blank("")
  {
  }

  lemma Alone(t: Tree)
    ensures DocumentText("", t, "") == Unparse(t)
  {
  }
}
