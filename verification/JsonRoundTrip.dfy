/** Reading back what the printers write: a print is one of the strict texts of a tree, so the results about trees apply. */
module JsonRoundTrip {
  import opened Common
  import opened JsonValue
  import opened JsonPrint
  import opened Numerals
  import opened JsonGrammar
  import opened JsonSyntax
  import opened JsonReading
  import opened JsonTrees
  import Utf8

  // ---------------------------------------------------------------- leaves

  function Spell(s: string): seq<Spelled> {
    if s == "" then [] else [Spelled(s[0] as int, Escape(s[0]))] + Spell(s[1..])
  }

  /** What `write_json_string` writes for a character is one of its standard spellings. */
  lemma EscapeSpells(c: char)
    ensures Spelling(Escape(c), c as int, true)
  {
    var n, t := c as int, Escape(c);
    if t != [c] && |t| != 2 {
      assert n < 0x20 && t[2..] == ['0', '0', HexDigit(n / 16), HexDigit(n % 16)];
      assert t[2..][1..] == ['0', HexDigit(n / 16), HexDigit(n % 16)];
    }
  }

  lemma {:induction false} SpellFacts(s: string)
    ensures Quoted(Spell(s)) == Quote(s)
    ensures CharsText(Spell(s)) == Escaped(s) && CharsValue(Spell(s)) == Some(s) && LegalChars(Spell(s), true)
  {
    hide Escape, Spelling;
    if s != "" {
      SpellFacts(s[1..]);
      EscapeSpells(s[0]);
      assert Spell(s)[1..] == Spell(s[1..]);
      assert Scalar(s[0] as int) && [s[0]] + s[1..] == s;
    }
    assert "\"" + Escaped(s) + "\"" == "\"" + (Escaped(s) + "\"");
  }

  function IntegerNumeral(n: int): Numeral {
    Numeral(n < 0, Decimal(if n < 0 then -n else n), None, None)
  }

  lemma IntegerFacts(lib: FloatLib, n: int)
    requires -0x8000_0000_0000_0000 <= n < 0x1_0000_0000_0000_0000
    ensures NumeralText(IntegerNumeral(n)) == Integer(n) && LegalNumeral(IntegerNumeral(n), true)
    ensures NumeralValue(lib, IntegerNumeral(n)) == Some(if n < 0 then I64(n) else U64(n))
  {
    hide Decimal, Magnitude;
    DecimalReadsBack(if n < 0 then -n else n);
  }

  /** The library prints this float as a standard numeral that is not an integer, and reads that numeral back. */
  ghost predicate FloatForm(lib: FloatLib, f: nat, n: Numeral) {
    && LegalNumeral(n, true) && !IsInteger(n) && NumeralText(n) == lib.show(f)
    && lib.read(lib.show(f)) == Some(f)
  }

  /** This fails for integral floats, which print without a fraction, and for infinities and NaN. */
  ghost predicate FloatReadsBack(lib: FloatLib, f: nat) {
    exists n :: FloatForm(lib, f, n)
  }

  /** Every float inside the value reads back. A float-free value satisfies this for any library. */
  ghost predicate FloatsReadBack(lib: FloatLib, v: Json)
    decreases v
  {
    match v
    case F64(f) => FloatReadsBack(lib, f)
    case Array(items) => forall x :: x in items ==> FloatsReadBack(lib, x)
    case Object(entries) => forall e :: e in entries ==> FloatsReadBack(lib, e.value)
    case _ => true
  }

  lemma {:induction false} FloatFreeReadsBack(lib: FloatLib, v: Json)
    requires FloatFree(v)
    ensures FloatsReadBack(lib, v)
    decreases v
  {
    match v
    case Array(items) =>
      forall x | x in items ensures FloatsReadBack(lib, x) { FloatFreeReadsBack(lib, x); }
    case Object(entries) =>
      forall e | e in entries ensures FloatsReadBack(lib, e.value) { FloatFreeReadsBack(lib, e.value); }
    case _ =>
  }

  ghost function FloatNumeral(lib: FloatLib, f: nat): (n: Numeral)
    requires FloatReadsBack(lib, f)
    ensures FloatForm(lib, f, n)
  {
    var n :| FloatForm(lib, f, n);
    n
  }

  // ---------------------------------------------------------------- the tree of a print

  /** The tree whose text a printer writes. */
  ghost function TreeOf(lib: FloatLib, v: Json, l: Layout): Tree
    requires FloatsReadBack(lib, v)
    decreases v, 0
  {
    match v
    case Null => NullWord
    case Bool(b) => BoolWord(b)
    case I64(i) => Number(IntegerNumeral(i))
    case U64(u) => Number(IntegerNumeral(u))
    case F64(f) => Number(FloatNumeral(lib, f))
    case Str(s) => Text(Spell(s))
    case Array(items) => List(TreeItems(lib, items, Inner(l), l), false, "")
    case Object(entries) => Record(TreeMembers(lib, entries, Inner(l), l), false, "")
  }

  ghost function TreeItem(lib: FloatLib, v: Json, inner: Layout, after: string): Item
    requires FloatsReadBack(lib, v)
    decreases v, 1
  {
    Item(Break(inner), TreeOf(lib, v, inner), after)
  }

  /** The line break before the closing bracket belongs to the last element. */
  ghost function TreeItems(lib: FloatLib, items: seq<Json>, inner: Layout, outer: Layout): (ts: seq<Item>)
    requires forall x :: x in items ==> FloatsReadBack(lib, x)
    ensures |ts| == |items|
    decreases items, 1
  {
    if items == [] then []
    else [TreeItem(lib, items[0], inner, if |items| == 1 then Break(outer) else "")] + TreeItems(lib, items[1..], inner, outer)
  }

  function Gap(l: Layout): string { if l.Compact? then "" else " " }

  ghost function TreeMember(lib: FloatLib, e: Entry, inner: Layout, after: string): Member
    requires FloatsReadBack(lib, e.value)
    decreases e, 1
  {
    Member(Break(inner), Spell(e.key), "", Gap(inner), TreeOf(lib, e.value, inner), after)
  }

  ghost function TreeMembers(lib: FloatLib, es: seq<Entry>, inner: Layout, outer: Layout): (ts: seq<Member>)
    requires forall e :: e in es ==> FloatsReadBack(lib, e.value)
    ensures |ts| == |es|
    decreases es, 1
  {
    if es == [] then []
    else [TreeMember(lib, es[0], inner, if |es| == 1 then Break(outer) else "")] + TreeMembers(lib, es[1..], inner, outer)
  }

  // ---------------------------------------------------------------- its text

  lemma {:induction false} TreeText(lib: FloatLib, v: Json, l: Layout)
    requires FloatsReadBack(lib, v)
    ensures Unparse(TreeOf(lib, v, l)) == Render(lib, v, l)
    decreases v, 0
  {
    hide Escaped, Decimal, NumeralText, Integer, Spell, Quoted, Quote, ItemsText, MembersText, RenderItems;
    hide RenderEntries, Break, FloatReadsBack;
    match v
    case I64(i) => IntegerFacts(lib, i);
    case U64(u) => IntegerFacts(lib, u);
    case Str(s) => SpellFacts(s);
    case Array(items) =>
      if items != [] {
        TreeItemsText(lib, items, Inner(l), l);
        ClosesWith(RenderItems(lib, items, Inner(l)), Break(l), "]");
      }
    case Object(entries) =>
      if entries != [] {
        TreeMembersText(lib, entries, Inner(l), l);
        ClosesWith(RenderEntries(lib, entries, Inner(l)), Break(l), "}");
      }
    case _ =>
  }

  lemma ClosesWith(body: string, gap: string, close: string)
    ensures (body + gap) + ("" + close) == body + (gap + close)
  {
    assert "" + close == close;
  }

  lemma {:induction false} TreeItemsText(lib: FloatLib, items: seq<Json>, inner: Layout, outer: Layout)
    requires items != [] && forall x :: x in items ==> FloatsReadBack(lib, x)
    ensures TreeItems(lib, items, inner, outer)[0].before == Break(inner)
    ensures ItemsText(TreeItems(lib, items, inner, outer)) == RenderItems(lib, items, inner) + Break(outer)
    decreases items, 1
  {
    hide Unparse, TreeOf, Render, Break, FloatsReadBack;
    var ts := TreeItems(lib, items, inner, outer);
    var first := Render(lib, items[0], inner);
    assert items[0] in items;
    TreeText(lib, items[0], inner);
    assert ts[1..] == TreeItems(lib, items[1..], inner, outer);
    if |items| == 1 {
      LastMore(ts);
      assert Break(outer) + "" == Break(outer);
    } else {
      TreeItemsText(lib, items[1..], inner, outer);
      Separated(first, Break(inner), RenderItems(lib, items[1..], inner), Break(outer));
    }
  }

  lemma Separated(first: string, gap: string, rest: string, last: string)
    ensures first + ("" + ("," + (gap + (rest + last)))) == first + ("," + (gap + rest)) + last
  {
    assert "" + ("," + (gap + (rest + last))) == ("," + (gap + rest)) + last;
  }

  lemma TreeMemberText(lib: FloatLib, e: Entry, inner: Layout, after: string)
    requires FloatsReadBack(lib, e.value)
    ensures MemberText(TreeMember(lib, e, inner, after)) == RenderEntry(lib, e, inner)
    decreases e, 1
  {
    hide Unparse, TreeOf, Render, FloatsReadBack, Spell, Quoted, Quote;
    TreeText(lib, e.value, inner);
    SpellFacts(e.key);
    var value := Render(lib, e.value, inner);
    assert "" + (":" + (Gap(inner) + value)) == Colon(inner) + value;
  }

  lemma {:induction false} TreeMembersText(lib: FloatLib, es: seq<Entry>, inner: Layout, outer: Layout)
    requires es != [] && forall e :: e in es ==> FloatsReadBack(lib, e.value)
    ensures TreeMembers(lib, es, inner, outer)[0].before == Break(inner)
    ensures MembersText(TreeMembers(lib, es, inner, outer)) == RenderEntries(lib, es, inner) + Break(outer)
    decreases es, 1
  {
    hide MemberText, RenderEntry, Break, FloatsReadBack, Spell, TreeOf, Gap;
    var ts := TreeMembers(lib, es, inner, outer);
    var first := RenderEntry(lib, es[0], inner);
    assert es[0] in es;
    TreeMemberText(lib, es[0], inner, if |es| == 1 then Break(outer) else "");
    assert ts[1..] == TreeMembers(lib, es[1..], inner, outer);
    if |es| == 1 {
      LastMoreMembers(ts);
      assert Break(outer) + "" == Break(outer);
    } else {
      TreeMembersText(lib, es[1..], inner, outer);
      Separated(first, Break(inner), RenderEntries(lib, es[1..], inner), Break(outer));
    }
  }

  // ---------------------------------------------------------------- its legality and depth

  lemma BreakIsBlank(l: Layout)
    ensures Blank(Break(l)) && Blank(Gap(l)) && Blank("")
  {
  }

  /** The print is a standard text. */
  lemma {:induction false} TreeLegal(lib: FloatLib, v: Json, l: Layout)
    requires FloatsReadBack(lib, v)
    ensures Legal(TreeOf(lib, v, l), true) && TreeDepth(TreeOf(lib, v, l)) == Depth(v)
    decreases v, 0
  {
    hide LegalNumeral, IntegerNumeral, Spell, LegalChars, Break, FloatReadsBack, ItemsDepth, MembersDepth;
    hide DepthItems, DepthEntries;
    BreakIsBlank(l);
    match v
    case I64(i) => IntegerFacts(lib, i);
    case U64(u) => IntegerFacts(lib, u);
    case Str(s) => SpellFacts(s);
    case Array(items) => TreeItemsLegal(lib, items, Inner(l), l);
    case Object(entries) => TreeMembersLegal(lib, entries, Inner(l), l);
    case _ =>
  }

  lemma {:induction false} TreeItemsLegal(lib: FloatLib, items: seq<Json>, inner: Layout, outer: Layout)
    requires forall x :: x in items ==> FloatsReadBack(lib, x)
    ensures ItemsDepth(TreeItems(lib, items, inner, outer)) == DepthItems(items)
    ensures forall it :: it in TreeItems(lib, items, inner, outer) ==> Blank(it.before) && Legal(it.value, true) && Blank(it.after)
    decreases items, 1
  {
    hide Legal, TreeOf, Break, Depth, TreeDepth, Blank, FloatsReadBack;
    if items != [] {
      var ts := TreeItems(lib, items, inner, outer);
      BreakIsBlank(inner);
      BreakIsBlank(outer);
      TreeLegal(lib, items[0], inner);
      TreeItemsLegal(lib, items[1..], inner, outer);
      assert ts[1..] == TreeItems(lib, items[1..], inner, outer);
    }
  }

  lemma {:induction false} TreeMembersLegal(lib: FloatLib, es: seq<Entry>, inner: Layout, outer: Layout)
    requires forall e :: e in es ==> FloatsReadBack(lib, e.value)
    ensures MembersDepth(TreeMembers(lib, es, inner, outer)) == DepthEntries(es)
    ensures forall m :: m in TreeMembers(lib, es, inner, outer) ==>
              && Blank(m.before) && LegalChars(m.key, true) && Blank(m.afterKey) && Blank(m.beforeValue)
              && Legal(m.value, true) && Blank(m.after)
    decreases es, 1
  {
    hide Legal, TreeOf, Break, Depth, TreeDepth, Blank, FloatsReadBack, LegalChars, Spell, Gap;
    if es != [] {
      var ts := TreeMembers(lib, es, inner, outer);
      BreakIsBlank(inner);
      BreakIsBlank(outer);
      SpellFacts(es[0].key);
      TreeLegal(lib, es[0].value, inner);
      TreeMembersLegal(lib, es[1..], inner, outer);
      assert ts[1..] == TreeMembers(lib, es[1..], inner, outer);
    }
  }

  // ---------------------------------------------------------------- its meaning

  /** The print stands for the normal form of the value. */
  lemma {:induction false} TreeMeaning(lib: FloatLib, v: Json, l: Layout)
    requires FloatsReadBack(lib, v) && Legal(TreeOf(lib, v, l), false)
    ensures Denote(lib, TreeOf(lib, v, l)) == Some(Normal(v))
    decreases v, 0
  {
    hide NumeralValue, LegalNumeral, IntegerNumeral, Spell, CharsValue, LegalChars, Break, DenoteItems;
    hide DenoteMembers, NormalItems, NormalEntries, Fold;
    match v
    case I64(i) => IntegerFacts(lib, i);
    case U64(u) => IntegerFacts(lib, u);
    case F64(f) => FloatMeaning(lib, f);
    case Str(s) => SpellFacts(s);
    case Array(items) => TreeItemsMeaning(lib, items, Inner(l), l);
    case Object(entries) => TreeMembersMeaning(lib, entries, Inner(l), l);
    case _ =>
  }

  lemma FloatMeaning(lib: FloatLib, f: nat)
    requires FloatReadsBack(lib, f) && LegalNumeral(FloatNumeral(lib, f), false)
    ensures NumeralValue(lib, FloatNumeral(lib, f)) == Some(F64(f))
  {
    hide Utf8.Encode, NumeralText;
  }

  lemma TreeItemsHead(lib: FloatLib, items: seq<Json>, inner: Layout, outer: Layout)
    requires items != [] && forall x :: x in items ==> FloatsReadBack(lib, x)
    ensures var ts := TreeItems(lib, items, inner, outer);
            ts[0].value == TreeOf(lib, items[0], inner) && ts[0] in ts && ts[1..] == TreeItems(lib, items[1..], inner, outer)
  {
    hide TreeOf, Break, FloatsReadBack;
  }

  lemma TreeMembersHead(lib: FloatLib, es: seq<Entry>, inner: Layout, outer: Layout)
    requires es != [] && forall e :: e in es ==> FloatsReadBack(lib, e.value)
    ensures var ts := TreeMembers(lib, es, inner, outer);
            && ts[0].value == TreeOf(lib, es[0].value, inner) && ts[0].key == Spell(es[0].key)
            && ts[0] in ts && ts[1..] == TreeMembers(lib, es[1..], inner, outer)
  {
    hide TreeOf, Break, FloatsReadBack, Spell;
  }

  lemma {:induction false} TreeItemsMeaning(lib: FloatLib, items: seq<Json>, inner: Layout, outer: Layout)
    requires forall x :: x in items ==> FloatsReadBack(lib, x)
    requires forall it :: it in TreeItems(lib, items, inner, outer) ==> Legal(it.value, false)
    ensures DenoteItems(lib, TreeItems(lib, items, inner, outer)) == Some(NormalItems(items))
    decreases items, 1
  {
    hide Denote, Legal, TreeOf, TreeItems, Break, Normal, FloatsReadBack;
    if items != [] {
      var ts := TreeItems(lib, items, inner, outer);
      TreeItemsHead(lib, items, inner, outer);
      assert forall it :: it in ts[1..] ==> it in ts;
      TreeMeaning(lib, items[0], inner);
      TreeItemsMeaning(lib, items[1..], inner, outer);
    }
  }

  lemma {:induction false} TreeMembersMeaning(lib: FloatLib, es: seq<Entry>, inner: Layout, outer: Layout)
    requires forall e :: e in es ==> FloatsReadBack(lib, e.value)
    requires forall m :: m in TreeMembers(lib, es, inner, outer) ==> Legal(m.value, false)
    ensures DenoteMembers(lib, TreeMembers(lib, es, inner, outer)) == Some(NormalEntries(es))
    decreases es, 1
  {
    hide Denote, Legal, TreeOf, TreeMembers, Break, Normal, FloatsReadBack, Spell, CharsValue;
    if es != [] {
      var ts := TreeMembers(lib, es, inner, outer);
      TreeMembersHead(lib, es, inner, outer);
      SpellFacts(es[0].key);
      TreeMeaning(lib, es[0].value, inner);
      TreeMembersMeaning(lib, es[1..], inner, outer);
    }
  }

  // ---------------------------------------------------------------- whole documents

  /**
   The round trip, for every value whose floats read back and for both printers. A value nested at
   most 512 deep reads back as its normal form; a deeper one is refused with the depth error.
   */
  lemma ParseRender(lib: FloatLib, v: Json, l: Layout)
    requires FloatsReadBack(lib, v)
    ensures var r := ParseText(lib, Render(lib, v, l));
            if Depth(v) <= 512 then r.Ok? && r.value == Normal(v)
            else r.Err? && r.error.kind == DepthExceeded
  {
    hide ParseText, Render, TreeOf, Unparse, Depth, TreeDepth, Normal, Denote, Legal, Fault, FloatsReadBack;
    var t := TreeOf(lib, v, l);
    TreeText(lib, v, l);
    TreeLegal(lib, v, l);
    StrictIsLegal(t);
    TreeMeaning(lib, v, l);
    assert Blank("");
    ReadsDocument(lib, "", t, "");
    FaultExactly(lib, t, 0);
    assert DocumentText("", t, "") == Render(lib, v, l);
  }

  /** Both printers write nothing but RFC 8259: the print is one of the standard texts of a value. */
  lemma PrintIsStandard(lib: FloatLib, v: Json, l: Layout)
    requires FloatsReadBack(lib, v)
    ensures exists t :: Legal(t, true) && Unparse(t) == Render(lib, v, l)
  {
    hide Render, TreeOf, Unparse, Legal, FloatsReadBack;
    TreeText(lib, v, l);
    TreeLegal(lib, v, l);
    assert Legal(TreeOf(lib, v, l), true);
  }

  /** Printing and reading back is the identity on exactly the canonical values of depth at most 512. */
  lemma RoundTrip(lib: FloatLib, v: Json, l: Layout)
    requires FloatsReadBack(lib, v)
    ensures var r := ParseText(lib, Render(lib, v, l));
            (r.Ok? && r.value == v) <==> Canonical(v) && Depth(v) <= 512
  {
    hide ParseText, Render, Depth, Normal, Canonical;
    ParseRender(lib, v, l);
    NormalFixed(v);
  }
}
