/** The compact and the pretty printer: the text they stand for, and the loops that write it. */
module JsonPrint {
  import opened Common
  import opened JsonValue
  import opened Numerals

  /**
   The library float routines the source leans on: `f64::from_str` on a lexeme and
   `f64::to_string`, over IEEE bit patterns.
   */
  datatype FloatLib = FloatLib(read: string -> Option<nat>, show: nat -> string)

  // ---------------------------------------------------------------- scalars

  /** What `write_json_string` writes for one character. */
  function Escape(c: char): string {
    if c == '\"' then "\\\""
    else if c == '\\' then "\\\\"
    else if c as int == 0x08 then "\\b"
    else if c as int == 0x0C then "\\f"
    else if c == '\n' then "\\n"
    else if c == '\r' then "\\r"
    else if c == '\t' then "\\t"
    else if c as int < 0x20 then "\\u00" + [HexDigit(c as int / 16), HexDigit(c as int % 16)]
    else [c]
  }

  function Escaped(s: string): string {
    if s == "" then "" else Escape(s[0]) + Escaped(s[1..])
  }

  function Quote(s: string): string {
    "\"" + Escaped(s) + "\""
  }

  // ---------------------------------------------------------------- containers

  function Indent(n: nat): (s: string)
    ensures |s| == 2 * n && forall c :: c in s ==> c == ' '
  {
    if n == 0 then "" else Indent(n - 1) + "  "
  }

  /** Which printer, and for the pretty one how deep the current value is indented. */
  datatype Layout = Compact | Pretty(indent: nat)

  function Inner(l: Layout): Layout {
    match l
    case Compact => Compact
    case Pretty(n) => Pretty(n + 1)
  }

  /** A line break and indentation, present only in the pretty form. */
  function Break(l: Layout): (s: string)
    ensures forall c :: c in s ==> c == ' ' || c == '\n'
  {
    match l
    case Compact => ""
    case Pretty(n) => "\n" + Indent(n)
  }

  function Colon(l: Layout): string {
    if l.Compact? then ":" else ": "
  }

  /** The printed text of a value, for both printers. */
  function Render(lib: FloatLib, v: Json, l: Layout): string
    decreases v, 0
  {
    match v
    case Null => "null"
    case Bool(b) => if b then "true" else "false"
    case I64(i) => Integer(i)
    case U64(u) => Integer(u)
    case F64(f) => lib.show(f)
    case Str(s) => Quote(s)
    case Array(items) =>
      if items == [] then "[]"
      else "[" + (Break(Inner(l)) + (RenderItems(lib, items, Inner(l)) + (Break(l) + "]")))
    case Object(entries) =>
      if entries == [] then "{}"
      else "{" + (Break(Inner(l)) + (RenderEntries(lib, entries, Inner(l)) + (Break(l) + "}")))
  }

  function RenderItems(lib: FloatLib, items: seq<Json>, l: Layout): string
    decreases items, 1
  {
    if items == [] then ""
    else if |items| == 1 then Render(lib, items[0], l)
    else Render(lib, items[0], l) + ("," + (Break(l) + RenderItems(lib, items[1..], l)))
  }

  function RenderEntry(lib: FloatLib, e: Entry, l: Layout): string
    decreases e, 1
  {
    Quote(e.key) + (Colon(l) + Render(lib, e.value, l))
  }

  function RenderEntries(lib: FloatLib, es: seq<Entry>, l: Layout): string
    decreases es, 1
  {
    if es == [] then ""
    else if |es| == 1 then RenderEntry(lib, es[0], l)
    else RenderEntry(lib, es[0], l) + ("," + (Break(l) + RenderEntries(lib, es[1..], l)))
  }

  // ---------------------------------------------------------------- the printers

  /** The `String` both printers append to. */
  class Buffer {
    var text: string

    constructor ()
      ensures text == ""
    {
      text := "";
    }

    method Push(s: string)
      modifies this
      ensures text == old(text) + s
    {
      text := text + s;
    }
  }

  method PushIndent(out: Buffer, n: nat)
    modifies out
    ensures out.text == old(out.text) + Indent(n)
  {
    for k := 0 to n
      invariant out.text == old(out.text) + Indent(k)
    {
      out.Push("  ");
    }
  }

  method WriteJsonString(s: string, out: Buffer)
    modifies out
    ensures out.text == old(out.text) + Quote(s)
  {
    hide Escape, Escaped;
    out.Push("\"");
    ghost var start := out.text;
    assert s[..0] == "" && Escaped("") == "" by { EscapedSnoc(s, 0); }
    for k := 0 to |s|
      invariant out.text == start + Escaped(s[..k])
    {
      EscapedSnoc(s, k);
      out.Push(Escape(s[k]));
    }
    assert s[..|s|] == s;
    out.Push("\"");
  }

  lemma {:induction false} EscapedSnoc(s: string, k: nat)
    requires k <= |s|
    ensures Escaped("") == ""
    ensures k < |s| ==> Escaped(s[..k + 1]) == Escaped(s[..k]) + Escape(s[k])
  {
    hide Escape;
    if 0 < k < |s| {
      EscapedSnoc(s[1..], k - 1);
      assert s[..k + 1][1..] == s[1..][..k];
      assert s[..k][1..] == s[1..][..k - 1];
    }
  }

  lemma RenderScalar(lib: FloatLib, v: Json, l: Layout)
    ensures v.Null? ==> Render(lib, v, l) == "null"
    ensures v.Bool? ==> Render(lib, v, l) == if v.b then "true" else "false"
    ensures v.I64? ==> Render(lib, v, l) == Integer(v.i)
    ensures v.U64? ==> Render(lib, v, l) == Integer(v.u)
    ensures v.F64? ==> Render(lib, v, l) == lib.show(v.bits)
    ensures v.Str? ==> Render(lib, v, l) == Quote(v.s)
    ensures v == Array([]) ==> Render(lib, v, l) == "[]"
    ensures v == Object([]) ==> Render(lib, v, l) == "{}"
  {
  }

  lemma RenderCompactArray(lib: FloatLib, items: seq<Json>, start: string)
    ensures start + "[" + RenderItems(lib, items, Compact) + "]" == start + Render(lib, Array(items), Compact)
  {
  }

  lemma RenderCompactObject(lib: FloatLib, es: seq<Entry>, start: string)
    ensures start + "{" + RenderEntries(lib, es, Compact) + "}" == start + Render(lib, Object(es), Compact)
  {
  }

  lemma PrettyArrayParts(lib: FloatLib, items: seq<Json>, n: nat)
    requires items != []
    ensures Render(lib, Array(items), Pretty(n))
         == "[" + (("\n" + Indent(n + 1)) + (RenderItems(lib, items, Pretty(n + 1)) + (("\n" + Indent(n)) + "]")))
  {
    hide RenderItems, Indent;
  }

  lemma PrettyObjectParts(lib: FloatLib, es: seq<Entry>, n: nat)
    requires es != []
    ensures Render(lib, Object(es), Pretty(n))
         == "{" + (("\n" + Indent(n + 1)) + (RenderEntries(lib, es, Pretty(n + 1)) + (("\n" + Indent(n)) + "}")))
  {
    hide RenderEntries, Indent;
  }

  lemma RenderPrettyArray(lib: FloatLib, items: seq<Json>, n: nat, start: string)
    requires items != []
    ensures start + "[\n" + Indent(n + 1) + RenderItems(lib, items, Pretty(n + 1)) + "\n" + Indent(n) + "]"
         == start + Render(lib, Array(items), Pretty(n))
  {
    hide *;
    PrettyArrayParts(lib, items, n);
    assert "[" + "\n" == "[\n";
    Bracketed(start, "[", Indent(n + 1), RenderItems(lib, items, Pretty(n + 1)), Indent(n), "]");
  }

  lemma RenderPrettyObject(lib: FloatLib, es: seq<Entry>, n: nat, start: string)
    requires es != []
    ensures start + "{\n" + Indent(n + 1) + RenderEntries(lib, es, Pretty(n + 1)) + "\n" + Indent(n) + "}"
         == start + Render(lib, Object(es), Pretty(n))
  {
    hide *;
    PrettyObjectParts(lib, es, n);
    assert "{" + "\n" == "{\n";
    Bracketed(start, "{", Indent(n + 1), RenderEntries(lib, es, Pretty(n + 1)), Indent(n), "}");
  }

  lemma Bracketed(start: string, open: string, indent: string, body: string, outdent: string, close: string)
    ensures start + (open + "\n") + indent + body + "\n" + outdent + close
         == start + (open + (("\n" + indent) + (body + (("\n" + outdent) + close))))
  {
    assert body + "\n" + outdent + close == body + (("\n" + outdent) + close);
    assert (open + "\n") + indent + body == open + (("\n" + indent) + body);
    assert start + (open + "\n") + indent + body == start + ((open + "\n") + indent + body);
  }

  lemma ItemsStep(lib: FloatLib, items: seq<Json>, l: Layout)
    ensures |items| == 1 ==> RenderItems(lib, items, l) == Render(lib, items[0], l)
    ensures |items| > 1 ==>
              RenderItems(lib, items, l) == Render(lib, items[0], l) + ("," + (Break(l) + RenderItems(lib, items[1..], l)))
  {
    hide Render, Break;
  }

  /** A separator and one more piece at the end of a list that starts with a piece. */
  lemma SeparatedSnoc(first: string, gap: string, rest: string, more: string)
    ensures first + ("," + (gap + (rest + more))) == first + ("," + (gap + rest)) + more
  {
    Regroup(gap, rest, more);
    Regroup(",", gap + rest, more);
    Regroup(first, "," + (gap + rest), more);
  }

  /** Printing one more element appends a separator, when one is due, and the element. */
  lemma {:induction false} RenderItemsSnoc(lib: FloatLib, items: seq<Json>, k: nat, l: Layout)
    requires k < |items|
    ensures RenderItems(lib, items[..k + 1], l)
         == RenderItems(lib, items[..k], l) + (if k == 0 then "" else "," + Break(l)) + Render(lib, items[k], l)
  {
    hide Break, Render, RenderItems;
    ItemsStep(lib, items[..k + 1], l);
    ItemsStep(lib, items[..k], l);
    RenderNothing(lib, l);
    var last := Render(lib, items[k], l);
    if k == 0 {
      assert items[..0] == [] && "" + "" == "" && "" + last == last;
    } else {
      RenderItemsSnoc(lib, items[1..], k - 1, l);
      assert items[..k + 1][1..] == items[1..][..k];
      assert items[..k][1..] == items[1..][..k - 1];
      var first, gap := Render(lib, items[0], l), Break(l);
      if k == 1 {
        assert items[1..][..0] == [];
        assert "" + "" + last == last;
        Regroup(",", gap, last);
        Regroup(first, "," + gap, last);
      } else {
        var rest := RenderItems(lib, items[1..][..k - 1], l);
        Regroup(rest, "," + gap, last);
        SeparatedSnoc(first, gap, rest, "," + gap + last);
        Regroup(first + ("," + (gap + rest)), "," + gap, last);
      }
    }
  }

  lemma EntriesStep(lib: FloatLib, es: seq<Entry>, l: Layout)
    ensures |es| == 1 ==> RenderEntries(lib, es, l) == RenderEntry(lib, es[0], l)
    ensures |es| > 1 ==>
              RenderEntries(lib, es, l) == RenderEntry(lib, es[0], l) + ("," + (Break(l) + RenderEntries(lib, es[1..], l)))
  {
    hide RenderEntry, Break;
  }

  lemma {:induction false} RenderEntriesSnoc(lib: FloatLib, es: seq<Entry>, k: nat, l: Layout)
    requires k < |es|
    ensures RenderEntries(lib, es[..k + 1], l)
         == RenderEntries(lib, es[..k], l) + (if k == 0 then "" else "," + Break(l)) + RenderEntry(lib, es[k], l)
  {
    hide Break, RenderEntry, RenderEntries;
    EntriesStep(lib, es[..k + 1], l);
    EntriesStep(lib, es[..k], l);
    RenderNothing(lib, l);
    var last := RenderEntry(lib, es[k], l);
    if k == 0 {
      assert es[..0] == [] && "" + "" == "" && "" + last == last;
    } else {
      RenderEntriesSnoc(lib, es[1..], k - 1, l);
      assert es[..k + 1][1..] == es[1..][..k];
      assert es[..k][1..] == es[1..][..k - 1];
      var first, gap := RenderEntry(lib, es[0], l), Break(l);
      if k == 1 {
        assert es[1..][..0] == [];
        assert "" + "" + last == last;
        Regroup(",", gap, last);
        Regroup(first, "," + gap, last);
      } else {
        var rest := RenderEntries(lib, es[1..][..k - 1], l);
        Regroup(rest, "," + gap, last);
        SeparatedSnoc(first, gap, rest, "," + gap + last);
        Regroup(first + ("," + (gap + rest)), "," + gap, last);
      }
    }
  }

  method WriteCompact(lib: FloatLib, v: Json, out: Buffer)
    modifies out
    ensures out.text == old(out.text) + Render(lib, v, Compact)
    decreases v, 0
  {
    hide *;
    RenderScalar(lib, v, Compact);
    match v
    case Null => out.Push("null");
    case Bool(b) => out.Push(if b then "true" else "false");
    case I64(i) => out.Push(Integer(i));
    case U64(u) => out.Push(Integer(u));
    case F64(f) => out.Push(lib.show(f));
    case Str(s) => WriteJsonString(s, out);
    case Array(items) =>
      out.Push("[");
      WriteCompactItems(lib, items, out);
      out.Push("]");
      RenderCompactArray(lib, items, old(out.text));
    case Object(entries) =>
      out.Push("{");
      WriteCompactEntries(lib, entries, out);
      out.Push("}");
      RenderCompactObject(lib, entries, old(out.text));
  }

  /** The element loop of `write_compact`. */
  method WriteCompactItems(lib: FloatLib, items: seq<Json>, out: Buffer)
    modifies out
    ensures out.text == old(out.text) + RenderItems(lib, items, Compact)
    decreases items, 1
  {
    hide Render, RenderItems;
    assert RenderItems(lib, items[..0], Compact) == "" by { RenderNothing(lib, Compact); }
    for k := 0 to |items|
      invariant out.text == old(out.text) + RenderItems(lib, items[..k], Compact)
    {
      RenderItemsSnoc(lib, items, k, Compact);
      if k > 0 {
        out.Push(",");
      }
      WriteCompact(lib, items[k], out);
      assert out.text == old(out.text) + RenderItems(lib, items[..k + 1], Compact);
    }
    assert items[..|items|] == items;
  }

  /** The member loop of `write_compact`. */
  method WriteCompactEntries(lib: FloatLib, es: seq<Entry>, out: Buffer)
    modifies out
    ensures out.text == old(out.text) + RenderEntries(lib, es, Compact)
    decreases es, 1
  {
    hide Render, RenderEntries, Quote;
    assert RenderEntries(lib, es[..0], Compact) == "" by { RenderNothing(lib, Compact); }
    for k := 0 to |es|
      invariant out.text == old(out.text) + RenderEntries(lib, es[..k], Compact)
    {
      RenderEntriesSnoc(lib, es, k, Compact);
      if k > 0 {
        out.Push(",");
      }
      WriteJsonString(es[k].key, out);
      out.Push(":");
      WriteCompact(lib, es[k].value, out);
      assert out.text == old(out.text) + RenderEntries(lib, es[..k + 1], Compact);
    }
    assert es[..|es|] == es;
  }

  method WritePretty(lib: FloatLib, v: Json, out: Buffer, indent: nat)
    modifies out
    ensures out.text == old(out.text) + Render(lib, v, Pretty(indent))
    decreases v, 0
  {
    hide *;
    RenderScalar(lib, v, Pretty(indent));
    match v
    case Null => out.Push("null");
    case Bool(b) => out.Push(if b then "true" else "false");
    case I64(i) => out.Push(Integer(i));
    case U64(u) => out.Push(Integer(u));
    case F64(f) => out.Push(lib.show(f));
    case Str(s) => WriteJsonString(s, out);
    case Array(items) =>
      if items == [] {
        out.Push("[]");
      } else {
        out.Push("[\n");
        WritePrettyItems(lib, items, out, indent + 1);
        PushIndent(out, indent);
        out.Push("]");
        RenderPrettyArray(lib, items, indent, old(out.text));
      }
    case Object(entries) =>
      if entries == [] {
        out.Push("{}");
      } else {
        out.Push("{\n");
        WritePrettyEntries(lib, entries, out, indent + 1);
        PushIndent(out, indent);
        out.Push("}");
        RenderPrettyObject(lib, entries, indent, old(out.text));
      }
  }

  /** The element loop of `write_pretty`: every line is indented and ends in a line feed. */
  method WritePrettyItems(lib: FloatLib, items: seq<Json>, out: Buffer, n: nat)
    requires items != []
    modifies out
    ensures out.text == old(out.text) + Indent(n) + RenderItems(lib, items, Pretty(n)) + "\n"
    decreases items, 1
  {
    hide Render, RenderItems, Indent;
    for k := 0 to |items|
      invariant k == 0 ==> out.text == old(out.text)
      invariant k > 0 ==> out.text == old(out.text) + Indent(n) + RenderItems(lib, items[..k], Pretty(n))
                                     + (if k < |items| then "," else "") + "\n"
    {
      assert RenderItems(lib, items[..0], Pretty(n)) == "" by { RenderNothing(lib, Pretty(n)); }
      RenderItemsSnoc(lib, items, k, Pretty(n));
      PushIndent(out, n);
      WritePretty(lib, items[k], out, n);
      assert out.text == old(out.text) + Indent(n) + RenderItems(lib, items[..k + 1], Pretty(n));
      if k + 1 < |items| {
        out.Push(",");
      }
      out.Push("\n");
    }
    assert items[..|items|] == items;
  }

  /** The lines of the first `k` members, each ended by a line feed. */
  function MemberLines(lib: FloatLib, es: seq<Entry>, k: nat, n: nat): string
    requires k <= |es|
  {
    if k == 0 then ""
    else Indent(n) + RenderEntries(lib, es[..k], Pretty(n)) + (if k < |es| then "," else "") + "\n"
  }

  lemma MemberLinesAt(lib: FloatLib, es: seq<Entry>, k: nat, n: nat)
    requires k <= |es|
    ensures k == 0 ==> MemberLines(lib, es, k, n) == ""
    ensures 0 < k < |es| ==> MemberLines(lib, es, k, n) == Indent(n) + RenderEntries(lib, es[..k], Pretty(n)) + "," + "\n"
    ensures 0 < k == |es| ==> MemberLines(lib, es, k, n) == Indent(n) + RenderEntries(lib, es[..k], Pretty(n)) + "" + "\n"
    ensures Break(Pretty(n)) == "\n" + Indent(n)
  {
    hide Indent, RenderEntries;
  }

  lemma MemberLine(lib: FloatLib, es: seq<Entry>, k: nat, n: nat, start: string)
    requires k < |es|
    ensures start + MemberLines(lib, es, k, n) + Indent(n) + Quote(es[k].key) + ": "
            + Render(lib, es[k].value, Pretty(n)) + (if k + 1 < |es| then "," else "") + "\n"
         == start + MemberLines(lib, es, k + 1, n)
  {
    hide *;
    var entry, indent := RenderEntry(lib, es[k], Pretty(n)), Indent(n);
    var sep := if k + 1 < |es| then "," else "";
    MemberLinesAt(lib, es, k, n);
    MemberLinesAt(lib, es, k + 1, n);
    RenderPrettyEntry(lib, es[k], n, start + MemberLines(lib, es, k, n) + indent);
    var done := RenderEntries(lib, es[..k], Pretty(n));
    RenderEntriesSnoc(lib, es, k, Pretty(n));
    if k == 0 {
      RenderNothing(lib, Pretty(n));
      assert es[..0] == [] && "" + "" == "" && "" + entry == entry && start + "" == start;
      WholeLine(start, indent, entry, sep);
    } else {
      NextLine(start, indent, done, entry, sep);
    }
  }

  lemma RenderPrettyEntry(lib: FloatLib, e: Entry, n: nat, line: string)
    ensures line + Quote(e.key) + ": " + Render(lib, e.value, Pretty(n)) == line + RenderEntry(lib, e, Pretty(n))
  {
    hide Quote, Render;
  }

  lemma WholeLine(start: string, indent: string, entry: string, sep: string)
    ensures start + indent + entry + sep + "\n" == start + (indent + entry + sep + "\n")
  {
  }

  lemma NextLine(start: string, indent: string, done: string, entry: string, sep: string)
    ensures start + (indent + done + "," + "\n") + indent + entry + sep + "\n"
         == start + (indent + (done + ("," + ("\n" + indent)) + entry) + sep + "\n")
  {
    var head := indent + done + "," + "\n";
    assert head + indent + entry == indent + (done + ("," + ("\n" + indent)) + entry);
    assert start + head + indent + entry == start + (head + indent + entry);
    WholeLine(start, head + indent, entry, sep);
  }

  /** The member loop of `write_pretty`. */
  method WritePrettyEntries(lib: FloatLib, es: seq<Entry>, out: Buffer, n: nat)
    requires es != []
    modifies out
    ensures out.text == old(out.text) + Indent(n) + RenderEntries(lib, es, Pretty(n)) + "\n"
    decreases es, 1
  {
    hide Render, RenderEntries, Indent, Quote;
    for k := 0 to |es|
      invariant out.text == old(out.text) + MemberLines(lib, es, k, n)
    {
      hide MemberLines;
      MemberLine(lib, es, k, n, old(out.text));
      PushIndent(out, n);
      WriteJsonString(es[k].key, out);
      out.Push(": ");
      WritePretty(lib, es[k].value, out, n);
      if k + 1 < |es| {
        out.Push(",");
      }
      out.Push("\n");
    }
    assert es[..|es|] == es;
  }

  lemma RenderNothing(lib: FloatLib, l: Layout)
    ensures RenderItems(lib, [], l) == "" && RenderEntries(lib, [], l) == ""
  {
  }

  method ToStringCompact(lib: FloatLib, v: Json) returns (text: string)
    ensures text == Render(lib, v, Compact)
  {
    var out := new Buffer();
    WriteCompact(lib, v, out);
    text := out.text;
  }

  method ToStringPretty(lib: FloatLib, v: Json) returns (text: string)
    ensures text == Render(lib, v, Pretty(0))
  {
    var out := new Buffer();
    WritePretty(lib, v, out, 0);
    text := out.text;
  }
}
