/** What the two prints look like: line breaks, indentation, and the spaces after colons, read off the text itself. */
module JsonLayout {
  import opened Common
  import opened JsonValue
  import opened JsonPrint
  import opened Numerals

  // ---------------------------------------------------------------- a scan of the text

  /** A character that can stand outside strings without being a mark or white space. */
  predicate Ordinary(c: char) {
    c != '\"' && c != '[' && c != ']' && c != '{' && c != '}' && c != ',' && c != ':' && c as int > 0x20
  }

  predicate Closes(c: char) { c == ']' || c == '}' }

  /** The text starts with exactly `n` spaces. */
  predicate Spaces(t: string, n: nat) {
    n < |t| && (forall k :: 0 <= k < n ==> t[k] == ' ') && t[n] != ' '
  }

  /**
   The rest of an indented print, outside strings, with `d` brackets open. A comma ends its line. After every line feed there are
   exactly two spaces for each open bracket, one bracket less when a closing one follows; a closing bracket stands first on
   its line unless the container is empty. A colon is followed by exactly one space. There is no other white space.
   */
  predicate Indented(t: string, d: nat)
    decreases |t|
  {
    if t == "" then d == 0
    else if t[0] == '\"' then IndentedString(t[1..], d)
    else if t[0] == '[' || t[0] == '{' then
      if |t| > 1 && Closes(t[1]) then t[1] as int == t[0] as int + 2 && Indented(t[2..], d) else NewLine(t[1..], d + 1)
    else if t[0] == ',' then NewLine(t[1..], d)
    else if t[0] == '\n' then
      d > 0 && Spaces(t[1..], 2 * (d - 1)) && Closes(t[1 + 2 * (d - 1)]) && Indented(t[2 + 2 * (d - 1)..], d - 1)
    else if t[0] == ':' then Spaces(t[1..], 1) && Indented(t[2..], d)
    else Ordinary(t[0]) && Indented(t[1..], d)
  }

  /** A line break before an element or a member. */
  predicate NewLine(t: string, d: nat)
    decreases |t|
  {
    t != "" && t[0] == '\n' && Spaces(t[1..], 2 * d) && !Closes(t[1 + 2 * d]) && Indented(t[1 + 2 * d..], d)
  }

  /** Inside a string: a backslash takes the next character with it, and no control character stands for itself. */
  predicate IndentedString(t: string, d: nat)
    decreases |t|
  {
    if t == "" || t[0] as int < 0x20 then false
    else if t[0] == '\"' then Indented(t[1..], d)
    else if t[0] == '\\' then |t| > 1 && IndentedString(t[2..], d)
    else IndentedString(t[1..], d)
  }

  /** The rest of a compact print: no white space outside strings. */
  predicate Tight(t: string, inside: bool)
    decreases |t|
  {
    if t == "" then !inside
    else if !inside then t[0] as int > 0x20 && Tight(t[1..], t[0] == '\"')
    else if t[0] as int < 0x20 then false
    else if t[0] == '\\' then |t| > 1 && Tight(t[2..], true)
    else Tight(t[1..], t[0] != '\"')
  }

  // ---------------------------------------------------------------- what the library prints for floats

  predicate AllOrdinary(t: string) { forall k :: 0 <= k < |t| ==> Ordinary(t[k]) }

  /** The library prints something for every float, and no mark of JSON or white space. */
  ghost predicate FloatsOrdinary(lib: FloatLib) {
    forall f :: lib.show(f) != "" && AllOrdinary(lib.show(f))
  }

  // ---------------------------------------------------------------- characters

  /** A character stands for itself unless it is a quote, a backslash or a control character. */
  lemma EscapeForm(c: char)
    ensures c as int >= 0x20 && c != '\"' && c != '\\' ==> Escape(c) == [c]
    ensures c == '\"' ==> Escape(c) == ['\\', '\"']
    ensures c == '\\' ==> Escape(c) == ['\\', '\\']
    ensures c as int == 8 ==> Escape(c) == ['\\', 'b']
    ensures c as int == 9 ==> Escape(c) == ['\\', 't']
    ensures c as int == 10 ==> Escape(c) == ['\\', 'n']
    ensures c as int == 12 ==> Escape(c) == ['\\', 'f']
    ensures c as int == 13 ==> Escape(c) == ['\\', 'r']
    ensures c as int < 0x20 && c as int !in {8, 9, 10, 12, 13} ==>
              Escape(c) == ['\\', 'u', '0', '0', "0123456789abcdef"[c as int / 16], "0123456789abcdef"[c as int % 16]]
  {
  }

  lemma StringStep(t: string, d: nat, c: char)
    ensures c as int >= 0x20 && c != '\"' && c != '\\' ==> IndentedString([c] + t, d) == IndentedString(t, d)
    ensures c as int >= 0x20 ==> IndentedString(['\\', c] + t, d) == IndentedString(t, d)
    ensures IndentedString("\"" + t, d) == Indented(t, d)
    ensures Indented("\"" + t, d) == IndentedString(t, d)
  {
    assert ([c] + t)[1..] == t && (['\\', c] + t)[2..] == t && ("\"" + t)[1..] == t;
  }

  lemma EscapeScans(c: char, t: string, d: nat)
    ensures IndentedString(Escape(c) + t, d) == IndentedString(t, d)
  {
    EscapeForm(c);
    hide Escape, IndentedString, Indented;
    if |Escape(c)| == 1 {
      StringStep(t, d, c);
    } else if |Escape(c)| == 2 {
      StringStep(t, d, Escape(c)[1]);
      assert Escape(c) == ['\\', Escape(c)[1]];
    } else {
      var h, l := Escape(c)[4], Escape(c)[5];
      assert Escape(c) + t == ['\\', 'u'] + (['0'] + (['0'] + ([h] + ([l] + t))));
      StringStep(['0'] + (['0'] + ([h] + ([l] + t))), d, 'u');
      StringStep(['0'] + ([h] + ([l] + t)), d, '0');
      StringStep([h] + ([l] + t), d, '0');
      HexOrdinary(c as int / 16);
      HexOrdinary(c as int % 16);
      StringStep([l] + t, d, h);
      StringStep(t, d, l);
    }
  }

  lemma HexOrdinary(n: nat)
    requires n < 16
    ensures var h := "0123456789abcdef"[n]; h as int >= 0x20 && h != '\"' && h != '\\'
  {
  }

  lemma {:induction false} EscapedScans(s: string, t: string, d: nat)
    ensures IndentedString(Escaped(s) + t, d) == IndentedString(t, d)
    decreases |s|
  {
    hide Escape, IndentedString, Indented;
    if s == "" {
      assert "" + t == t;
    } else {
      EscapedScans(s[1..], t, d);
      EscapeScans(s[0], Escaped(s[1..]) + t, d);
      assert Escaped(s) + t == Escape(s[0]) + (Escaped(s[1..]) + t);
    }
  }

  lemma QuoteScans(s: string, t: string, d: nat)
    ensures Indented(Quote(s) + t, d) == Indented(t, d)
  {
    hide Escaped, IndentedString, Indented;
    assert Quote(s) + t == "\"" + (Escaped(s) + ("\"" + t));
    StringStep(Escaped(s) + ("\"" + t), d, 'x');
    EscapedScans(s, "\"" + t, d);
    StringStep(t, d, 'x');
  }

  lemma {:induction false} OrdinaryScans(s: string, t: string, d: nat)
    requires AllOrdinary(s)
    ensures Indented(s + t, d) == Indented(t, d)
    decreases |s|
  {
    if s == "" {
      assert s + t == t;
    } else {
      OrdinaryScans(s[1..], t, d);
      assert (s + t)[0] == s[0] && (s + t)[1..] == s[1..] + t;
    }
  }

  // ---------------------------------------------------------------- line breaks

  lemma IndentScans(t: string, d: nat)
    requires t != "" && t[0] != ' '
    ensures Spaces(Indent(d) + t, 2 * d) && (Indent(d) + t)[2 * d] == t[0] && (Indent(d) + t)[2 * d..] == t
  {
    hide Indent;
    forall k | 0 <= k < 2 * d ensures (Indent(d) + t)[k] == ' ' {
      assert Indent(d)[k] in Indent(d);
    }
  }

  lemma BreakParts(d: nat, t: string)
    ensures Break(Pretty(d)) + t == "\n" + (Indent(d) + t)
  {
    hide Indent;
    Regroup("\n", Indent(d), t);
  }

  lemma BreakScans(t: string, d: nat)
    requires t != "" && t[0] != ' ' && !Closes(t[0])
    ensures NewLine(Break(Pretty(d)) + t, d) == Indented(t, d)
  {
    IndentScans(t, d);
    BreakParts(d, t);
    hide Indent, Indented, Break, Spaces, Closes;
    var body := Indent(d) + t;
    var all := "\n" + body;
    assert all[1..] == body;
    assert all[1 + 2 * d] == body[2 * d] && all[1 + 2 * d..] == body[2 * d..];
  }

  lemma CloseParts(c: char, t: string, d: nat)
    requires c != ' '
    ensures var all := Break(Pretty(d)) + ([c] + t);
            all != "" && all[0] == '\n' && Spaces(all[1..], 2 * d) && all[1..][2 * d] == c && all[1..][2 * d..][1..] == t
  {
    IndentScans([c] + t, d);
    BreakParts(d, [c] + t);
    hide Indent, Spaces, Break;
    var body := Indent(d) + ([c] + t);
    assert ("\n" + body)[1..] == body;
    assert ([c] + t)[1..] == t;
  }

  lemma CloseScans(c: char, t: string, d: nat)
    requires Closes(c)
    ensures Indented(Break(Pretty(d)) + ([c] + t), d + 1) == Indented(t, d)
  {
    CloseParts(c, t, d);
    hide Break, Spaces;
    var all, n := Break(Pretty(d)) + ([c] + t), 2 * d;
    LineEnds(all, n);
    CloseLine(all, d);
  }

  lemma LineEnds(all: string, n: nat)
    requires all != "" && n < |all[1..]|
    ensures 1 + n < |all| && all[1 + n] == all[1..][n] && all[2 + n..] == all[1..][n..][1..]
  {
  }

  lemma CloseLine(all: string, d: nat)
    requires 1 + 2 * d < |all| && all[0] == '\n' && Spaces(all[1..], 2 * d) && Closes(all[1 + 2 * d])
    ensures Indented(all, d + 1) == Indented(all[2 + 2 * d..], d)
  {
    hide Spaces;
  }

  /** An opening bracket and a line break. */
  lemma OpenScans(c: char, t: string, d: nat)
    requires (c == '[' || c == '{') && t != "" && t[0] != ' ' && !Closes(t[0])
    ensures Indented([c] + (Break(Pretty(d + 1)) + t), d) == Indented(t, d + 1)
  {
    BreakScans(t, d + 1);
    hide Indent;
    var rest := Break(Pretty(d + 1)) + t;
    assert rest[0] == '\n' && ([c] + rest)[1..] == rest && ([c] + rest)[1] == rest[0];
    hide NewLine;
  }

  lemma CommaScans(t: string, d: nat)
    requires t != "" && t[0] != ' ' && !Closes(t[0])
    ensures Indented("," + (Break(Pretty(d)) + t), d) == Indented(t, d)
  {
    BreakScans(t, d);
    hide Indent, NewLine, Break;
    assert ("," + (Break(Pretty(d)) + t))[1..] == Break(Pretty(d)) + t;
  }

  lemma ColonScans(t: string, d: nat)
    requires t != "" && t[0] != ' '
    ensures Indented(": " + t, d) == Indented(t, d)
  {
    var all := ": " + t;
    assert all[1..][0] == ' ' && all[1..][1] == t[0] && all[2..] == t;
  }

  lemma EmptyScans(c: char, t: string, d: nat)
    requires c == '[' || c == '{'
    ensures Indented([c, (c as int + 2) as char] + t, d) == Indented(t, d)
  {
    var all := [c, (c as int + 2) as char] + t;
    assert all[2..] == t;
  }

  // ---------------------------------------------------------------- values

  /** Starts with a mark that opens something, or an ordinary character. */
  predicate Starts(t: string) {
    t != "" && t[0] != ' ' && !Closes(t[0])
  }

  lemma IntegerOrdinary(n: int)
    ensures Integer(n) != "" && AllOrdinary(Integer(n))
  {
    var t := Integer(n);
    var m := if n < 0 then -n else n;
    var d := Decimal(m);
    hide Decimal;
    forall k | 0 <= k < |t| ensures Ordinary(t[k]) {
      if n < 0 && k > 0 {
        assert t[k] == d[k - 1] && d[k - 1] in d;
      } else if n >= 0 {
        assert t[k] in d;
      }
    }
  }

  lemma ValueStarts(lib: FloatLib, v: Json, l: Layout)
    requires FloatsOrdinary(lib)
    ensures Starts(Render(lib, v, l))
  {
    RenderScalar(lib, v, l);
    match v
    case I64(i) => IntegerOrdinary(i);
    case U64(u) => IntegerOrdinary(u);
    case F64(f) => assert AllOrdinary(lib.show(f));
    case Array(items) =>
    case Object(entries) =>
    case _ =>
  }

  lemma ItemsStart(lib: FloatLib, items: seq<Json>, l: Layout, t: string)
    requires FloatsOrdinary(lib) && items != []
    ensures Starts(RenderItems(lib, items, l) + t)
  {
    ItemsStep(lib, items, l);
    ValueStarts(lib, items[0], l);
    hide Render, RenderItems;
  }

  lemma EntriesStart(lib: FloatLib, es: seq<Entry>, l: Layout, t: string)
    requires es != []
    ensures Starts(RenderEntries(lib, es, l) + t)
  {
    EntriesStep(lib, es, l);
    hide Render, RenderEntries;
  }

  /** An indented value changes nothing for what follows it. */
  lemma {:induction false} ValueScans(lib: FloatLib, v: Json, d: nat, t: string)
    requires FloatsOrdinary(lib)
    ensures Indented(Render(lib, v, Pretty(d)) + t, d) == Indented(t, d)
    decreases v, 0
  {
    hide Indented, Render, RenderItems, RenderEntries, Quote, Integer, Break;
    RenderScalar(lib, v, Pretty(d));
    match v
    case Null => OrdinaryScans("null", t, d);
    case Bool(b) => OrdinaryScans(if b then "true" else "false", t, d);
    case I64(i) =>
      IntegerOrdinary(i);
      OrdinaryScans(Integer(i), t, d);
    case U64(u) =>
      IntegerOrdinary(u);
      OrdinaryScans(Integer(u), t, d);
    case F64(f) => OrdinaryScans(lib.show(f), t, d);
    case Str(s) => QuoteScans(s, t, d);
    case Array(items) =>
      if items == [] {
        EmptyScans('[', t, d);
      } else {
        var rest := Break(Pretty(d)) + ("]" + t);
        RenderedArray(lib, items, d, t);
        ItemsStart(lib, items, Pretty(d + 1), rest);
        OpenScans('[', RenderItems(lib, items, Pretty(d + 1)) + rest, d);
        ItemsScan(lib, items, d + 1, rest);
        CloseScans(']', t, d);
      }
    case Object(entries) =>
      if entries == [] {
        EmptyScans('{', t, d);
      } else {
        var rest := Break(Pretty(d)) + ("}" + t);
        RenderedObject(lib, entries, d, t);
        EntriesStart(lib, entries, Pretty(d + 1), rest);
        OpenScans('{', RenderEntries(lib, entries, Pretty(d + 1)) + rest, d);
        EntriesScan(lib, entries, d + 1, rest);
        CloseScans('}', t, d);
      }
  }

  lemma RenderedArray(lib: FloatLib, items: seq<Json>, d: nat, t: string)
    requires items != []
    ensures Render(lib, Array(items), Pretty(d)) + t
         == "[" + (Break(Pretty(d + 1)) + (RenderItems(lib, items, Pretty(d + 1)) + (Break(Pretty(d)) + ("]" + t))))
  {
    hide RenderItems, Break;
    FourParts("[", Break(Pretty(d + 1)), RenderItems(lib, items, Pretty(d + 1)), Break(Pretty(d)), "]", t);
  }

  lemma RenderedObject(lib: FloatLib, es: seq<Entry>, d: nat, t: string)
    requires es != []
    ensures Render(lib, Object(es), Pretty(d)) + t
         == "{" + (Break(Pretty(d + 1)) + (RenderEntries(lib, es, Pretty(d + 1)) + (Break(Pretty(d)) + ("}" + t))))
  {
    hide RenderEntries, Break;
    FourParts("{", Break(Pretty(d + 1)), RenderEntries(lib, es, Pretty(d + 1)), Break(Pretty(d)), "}", t);
  }

  lemma FourParts(o: string, a: string, b: string, c: string, e: string, t: string)
    ensures (o + (a + (b + (c + e)))) + t == o + (a + (b + (c + (e + t))))
  {
    Regroup(c, e, t);
    Regroup(b, c + e, t);
    Regroup(a, b + (c + e), t);
    Regroup(o, a + (b + (c + e)), t);
  }

  lemma {:induction false} ItemsScan(lib: FloatLib, items: seq<Json>, d: nat, t: string)
    requires FloatsOrdinary(lib) && items != []
    ensures Indented(RenderItems(lib, items, Pretty(d)) + t, d) == Indented(t, d)
    decreases items, 1
  {
    hide Indented, Render, RenderItems, Break;
    ItemsStep(lib, items, Pretty(d));
    if |items| == 1 {
      ValueScans(lib, items[0], d, t);
    } else {
      var first, gap, rest := Render(lib, items[0], Pretty(d)), Break(Pretty(d)), RenderItems(lib, items[1..], Pretty(d));
      SeparatedMore(first, gap, rest, t);
      ItemsStart(lib, items[1..], Pretty(d), t);
      ValueScans(lib, items[0], d, "," + (gap + (rest + t)));
      CommaScans(rest + t, d);
      ItemsScan(lib, items[1..], d, t);
    }
  }

  lemma SeparatedMore(first: string, gap: string, rest: string, t: string)
    ensures first + ("," + (gap + rest)) + t == first + ("," + (gap + (rest + t)))
  {
    Regroup(gap, rest, t);
    Regroup(",", gap + rest, t);
    Regroup(first, "," + (gap + rest), t);
  }

  lemma {:induction false} EntryScans(lib: FloatLib, e: Entry, d: nat, t: string)
    requires FloatsOrdinary(lib)
    ensures Indented(RenderEntry(lib, e, Pretty(d)) + t, d) == Indented(t, d)
    decreases e, 1
  {
    hide Indented, Render, Quote;
    var value := Render(lib, e.value, Pretty(d));
    assert RenderEntry(lib, e, Pretty(d)) + t == Quote(e.key) + (": " + (value + t));
    QuoteScans(e.key, ": " + (value + t), d);
    ValueStarts(lib, e.value, Pretty(d));
    ColonScans(value + t, d);
    ValueScans(lib, e.value, d, t);
  }

  lemma {:induction false} EntriesScan(lib: FloatLib, es: seq<Entry>, d: nat, t: string)
    requires FloatsOrdinary(lib) && es != []
    ensures Indented(RenderEntries(lib, es, Pretty(d)) + t, d) == Indented(t, d)
    decreases es, 1
  {
    hide Indented, RenderEntry, RenderEntries, Break;
    EntriesStep(lib, es, Pretty(d));
    if |es| == 1 {
      EntryScans(lib, es[0], d, t);
    } else {
      var first, gap, rest := RenderEntry(lib, es[0], Pretty(d)), Break(Pretty(d)), RenderEntries(lib, es[1..], Pretty(d));
      SeparatedMore(first, gap, rest, t);
      EntriesStart(lib, es[1..], Pretty(d), t);
      EntryScans(lib, es[0], d, "," + (gap + (rest + t)));
      CommaScans(rest + t, d);
      EntriesScan(lib, es[1..], d, t);
    }
  }

  /** The pretty print of every value is indented as described. */
  lemma PrettyIsIndented(lib: FloatLib, v: Json)
    requires FloatsOrdinary(lib)
    ensures Indented(Render(lib, v, Pretty(0)), 0)
  {
    hide Render;
    ValueScans(lib, v, 0, "");
    assert Render(lib, v, Pretty(0)) + "" == Render(lib, v, Pretty(0));
  }

  // ---------------------------------------------------------------- the compact print

  lemma TightStep(t: string, c: char)
    ensures c as int >= 0x20 && c != '\"' && c != '\\' ==> Tight([c] + t, true) == Tight(t, true)
    ensures c as int >= 0x20 ==> Tight(['\\', c] + t, true) == Tight(t, true)
    ensures Tight("\"" + t, true) == Tight(t, false) && Tight("\"" + t, false) == Tight(t, true)
    ensures c != '\"' && c as int > 0x20 ==> Tight([c] + t, false) == Tight(t, false)
  {
    assert ([c] + t)[1..] == t && (['\\', c] + t)[2..] == t && ("\"" + t)[1..] == t;
  }

  lemma EscapeTight(c: char, t: string)
    ensures Tight(Escape(c) + t, true) == Tight(t, true)
  {
    EscapeForm(c);
    hide Escape, Tight;
    if |Escape(c)| == 1 {
      TightStep(t, c);
    } else if |Escape(c)| == 2 {
      TightStep(t, Escape(c)[1]);
      assert Escape(c) == ['\\', Escape(c)[1]];
    } else {
      var h, l := Escape(c)[4], Escape(c)[5];
      assert Escape(c) + t == ['\\', 'u'] + (['0'] + (['0'] + ([h] + ([l] + t))));
      TightStep(['0'] + (['0'] + ([h] + ([l] + t))), 'u');
      TightStep(['0'] + ([h] + ([l] + t)), '0');
      TightStep([h] + ([l] + t), '0');
      HexOrdinary(c as int / 16);
      HexOrdinary(c as int % 16);
      TightStep([l] + t, h);
      TightStep(t, l);
    }
  }

  lemma {:induction false} EscapedTight(s: string, t: string)
    ensures Tight(Escaped(s) + t, true) == Tight(t, true)
    decreases |s|
  {
    hide Escape, Tight;
    if s == "" {
      assert "" + t == t;
    } else {
      EscapedTight(s[1..], t);
      EscapeTight(s[0], Escaped(s[1..]) + t);
      assert Escaped(s) + t == Escape(s[0]) + (Escaped(s[1..]) + t);
    }
  }

  lemma QuoteTight(s: string, t: string)
    ensures Tight(Quote(s) + t, false) == Tight(t, false)
  {
    hide Escaped, Tight;
    assert Quote(s) + t == "\"" + (Escaped(s) + ("\"" + t));
    TightStep(Escaped(s) + ("\"" + t), 'x');
    EscapedTight(s, "\"" + t);
    TightStep(t, 'x');
  }

  lemma {:induction false} OrdinaryTight(s: string, t: string)
    requires AllOrdinary(s)
    ensures Tight(s + t, false) == Tight(t, false)
    decreases |s|
  {
    if s == "" {
      assert s + t == t;
    } else {
      OrdinaryTight(s[1..], t);
      assert (s + t)[0] == s[0] && (s + t)[1..] == s[1..] + t;
    }
  }

  lemma CompactParts(lib: FloatLib, items: seq<Json>, es: seq<Entry>, t: string)
    ensures Render(lib, Array(items), Compact) + t == "[" + (RenderItems(lib, items, Compact) + ("]" + t))
    ensures Render(lib, Object(es), Compact) + t == "{" + (RenderEntries(lib, es, Compact) + ("}" + t))
  {
    RenderCompactArray(lib, items, "");
    RenderCompactObject(lib, es, "");
    hide Render, RenderItems, RenderEntries;
    Bracket("[", RenderItems(lib, items, Compact), "]", t, Render(lib, Array(items), Compact));
    Bracket("{", RenderEntries(lib, es, Compact), "}", t, Render(lib, Object(es), Compact));
  }

  lemma Bracket(open: string, body: string, close: string, t: string, all: string)
    requires "" + open + body + close == "" + all
    ensures all + t == open + (body + (close + t))
  {
    assert "" + all == all && "" + open == open;
    assert open + body + close + t == open + (body + (close + t));
  }

  lemma {:induction false} ValueTight(lib: FloatLib, v: Json, t: string)
    requires FloatsOrdinary(lib)
    ensures Tight(Render(lib, v, Compact) + t, false) == Tight(t, false)
    decreases v, 0
  {
    hide Tight, Render, RenderItems, RenderEntries, Quote, Integer;
    RenderScalar(lib, v, Compact);
    match v
    case Null => OrdinaryTight("null", t);
    case Bool(b) => OrdinaryTight(if b then "true" else "false", t);
    case I64(i) =>
      IntegerOrdinary(i);
      OrdinaryTight(Integer(i), t);
    case U64(u) =>
      IntegerOrdinary(u);
      OrdinaryTight(Integer(u), t);
    case F64(f) => OrdinaryTight(lib.show(f), t);
    case Str(s) => QuoteTight(s, t);
    case Array(items) =>
      CompactParts(lib, items, [], t);
      var body := RenderItems(lib, items, Compact);
      TightStep(body + ("]" + t), '[');
      ItemsTight(lib, items, "]" + t);
      TightStep(t, ']');
    case Object(entries) =>
      CompactParts(lib, [], entries, t);
      var body := RenderEntries(lib, entries, Compact);
      TightStep(body + ("}" + t), '{');
      EntriesTight(lib, entries, "}" + t);
      TightStep(t, '}');
  }

  lemma {:induction false} ItemsTight(lib: FloatLib, items: seq<Json>, t: string)
    requires FloatsOrdinary(lib)
    ensures Tight(RenderItems(lib, items, Compact) + t, false) == Tight(t, false)
    decreases items, 1
  {
    hide Tight, Render, RenderItems;
    ItemsStep(lib, items, Compact);
    RenderNothing(lib, Compact);
    if items == [] {
      assert "" + t == t;
    } else if |items| == 1 {
      ValueTight(lib, items[0], t);
    } else {
      var first, rest := Render(lib, items[0], Compact), RenderItems(lib, items[1..], Compact);
      SeparatedMore(first, "", rest, t);
      NothingAndMore(rest + t);
      ValueTight(lib, items[0], "," + (rest + t));
      TightStep(rest + t, ',');
      ItemsTight(lib, items[1..], t);
    }
  }

  lemma {:induction false} EntryTight(lib: FloatLib, e: Entry, t: string)
    requires FloatsOrdinary(lib)
    ensures Tight(RenderEntry(lib, e, Compact) + t, false) == Tight(t, false)
    decreases e, 1
  {
    hide Tight, Render, Quote;
    var value := Render(lib, e.value, Compact);
    assert RenderEntry(lib, e, Compact) + t == Quote(e.key) + (":" + (value + t));
    QuoteTight(e.key, ":" + (value + t));
    TightStep(value + t, ':');
    ValueTight(lib, e.value, t);
  }

  lemma {:induction false} EntriesTight(lib: FloatLib, es: seq<Entry>, t: string)
    requires FloatsOrdinary(lib)
    ensures Tight(RenderEntries(lib, es, Compact) + t, false) == Tight(t, false)
    decreases es, 1
  {
    hide Tight, RenderEntry, RenderEntries;
    EntriesStep(lib, es, Compact);
    RenderNothing(lib, Compact);
    if es == [] {
      assert "" + t == t;
    } else if |es| == 1 {
      EntryTight(lib, es[0], t);
    } else {
      var first, rest := RenderEntry(lib, es[0], Compact), RenderEntries(lib, es[1..], Compact);
      SeparatedMore(first, "", rest, t);
      NothingAndMore(rest + t);
      EntryTight(lib, es[0], "," + (rest + t));
      TightStep(rest + t, ',');
      EntriesTight(lib, es[1..], t);
    }
  }

  /** The compact print of every value has no white space outside strings. */
  lemma CompactIsTight(lib: FloatLib, v: Json)
    requires FloatsOrdinary(lib)
    ensures Tight(Render(lib, v, Compact), false)
  {
    hide Render;
    ValueTight(lib, v, "");
    assert Render(lib, v, Compact) + "" == Render(lib, v, Compact);
  }
}
