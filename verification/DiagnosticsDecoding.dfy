/** What decoding a diagnostic makes of every JSON value, and what encoding writes, member by member. */
module DiagnosticsDecoding {
  import opened Common
  import opened JsonValue
  import opened Diagnostics

  // ---------------------------------------------------------------- members

  /** `x` is the value of the first member named `key`. */
  ghost predicate Holds(v: Json, key: string, x: Json) {
    v.Object? && exists k :: 0 <= k < |v.entries| && v.entries[k] == Entry(key, x)
                             && forall j :: 0 <= j < k ==> v.entries[j].key != key
  }

  ghost predicate TextAt(v: Json, key: string, t: string) { Holds(v, key, Str(t)) }

  /** A whole number that is not negative, of which the low 32 bits are kept. */
  ghost predicate NumberAt(v: Json, key: string, n: u32) {
    exists m: u64 :: n == m % 0x1_0000_0000
                     && (Holds(v, key, U64(m)) || (m < 0x8000_0000_0000_0000 && Holds(v, key, I64(m))))
  }

  /** The elements of an array member; no elements when there is no such array. */
  ghost predicate ListAt(v: Json, key: string, items: seq<Json>) {
    Holds(v, key, Array(items)) || (items == [] && forall xs: seq<Json> :: !Holds(v, key, Array(xs)))
  }

  lemma {:induction false} FirstMember(es: seq<Entry>, key: string) returns (k: nat)
    ensures k <= |es| && (forall j :: 0 <= j < k ==> es[j].key != key) && (k < |es| ==> es[k].key == key)
  {
    k := 0;
    while k < |es| && es[k].key != key
      invariant 0 <= k <= |es| && forall j :: 0 <= j < k ==> es[j].key != key
    {
      k := k + 1;
    }
  }

  /** `get` finds exactly the first member with the key. */
  lemma GetIs(v: Json, key: string, x: Json)
    ensures Get(v, key) == Some(x) <==> Holds(v, key, x)
  {
    hide Lookup;
    if v.Object? {
      var k := FirstMember(v.entries, key);
      LookupFirst(v.entries, key, k);
      if Get(v, key) == Some(x) {
        assert v.entries[k] == Entry(key, x);
      }
    }
  }

  lemma TextIs(v: Json, key: string, t: string)
    ensures GetStr(v, key) == Some(t) <==> TextAt(v, key, t)
  {
    hide Get, Holds;
    GetIs(v, key, Str(t));
    if GetStr(v, key) == Some(t) {
      assert Get(v, key).value == Str(t);
    }
  }

  lemma NumberIs(v: Json, key: string, n: u32)
    ensures GetU32(v, key) == Some(n) <==> NumberAt(v, key, n)
  {
    hide Get, Holds;
    if Get(v, key).Some? {
      var x := Get(v, key).value;
      GetIs(v, key, x);
      if x.I64? && x.i >= 0 {
        var m: u64 := x.i;
        assert x == I64(m);
      }
    }
    if NumberAt(v, key, n) {
      var m: u64 :| n == m % 0x1_0000_0000
                    && (Holds(v, key, U64(m)) || (m < 0x8000_0000_0000_0000 && Holds(v, key, I64(m))));
      GetIs(v, key, U64(m));
      if m < 0x8000_0000_0000_0000 {
        GetIs(v, key, I64(m));
      }
    }
  }

  lemma ItemsAre(v: Json, key: string, items: seq<Json>)
    ensures GetItems(v, key) == items <==> ListAt(v, key, items)
  {
    hide Get, Holds;
    GetIs(v, key, Array(items));
    forall xs: seq<Json> ensures Get(v, key) == Some(Array(xs)) <==> Holds(v, key, Array(xs)) {
      GetIs(v, key, Array(xs));
    }
    if Get(v, key).Some? && Get(v, key).value.Array? {
      GetIs(v, key, Array(Get(v, key).value.items));
    }
  }

  // ---------------------------------------------------------------- locations, related entries, suggestions

  /** A value is read as this location. */
  ghost predicate IsLocation(v: Json, l: Location) {
    && TextAt(v, "file", l.file)
    && NumberAt(v, "start_line", l.startLine) && NumberAt(v, "start_col", l.startCol)
    && NumberAt(v, "end_line", l.endLine) && NumberAt(v, "end_col", l.endCol)
  }

  lemma LocationDecodes(v: Json, l: Location)
    ensures LocationFromJson(v) == Some(l) <==> IsLocation(v, l)
  {
    hide GetStr, GetU32, TextAt, NumberAt;
    TextIs(v, "file", l.file);
    NumberIs(v, "start_line", l.startLine);
    NumberIs(v, "start_col", l.startCol);
    NumberIs(v, "end_line", l.endLine);
    NumberIs(v, "end_col", l.endCol);
  }

  ghost predicate LocationAt(v: Json, key: string, l: Location) {
    exists x :: Holds(v, key, x) && IsLocation(x, l)
  }

  lemma LocationIs(v: Json, key: string, l: Location)
    ensures GetLocation(v, key) == Some(l) <==> LocationAt(v, key, l)
  {
    hide Get, Holds, LocationFromJson, IsLocation;
    if Get(v, key).Some? {
      GetIs(v, key, Get(v, key).value);
      LocationDecodes(Get(v, key).value, l);
    }
    if x :| Holds(v, key, x) && IsLocation(x, l) {
      GetIs(v, key, x);
      LocationDecodes(x, l);
    }
  }

  /** A related entry is read exactly when it has a location that can be read and a message. */
  lemma RelatedDecodes(v: Json, r: Related)
    ensures RelatedFromJson(v) == Some(r) <==> LocationAt(v, "location", r.location) && TextAt(v, "message", r.message)
  {
    hide GetLocation, GetStr, LocationAt, TextAt;
    LocationIs(v, "location", r.location);
    TextIs(v, "message", r.message);
  }

  ghost predicate OptionalText(v: Json, key: string, o: Option<string>) {
    match o
    case Some(t) => TextAt(v, key, t)
    case None => forall t :: !TextAt(v, key, t)
  }

  ghost predicate OptionalLocation(v: Json, key: string, o: Option<Location>) {
    match o
    case Some(l) => LocationAt(v, key, l)
    case None => forall l :: !LocationAt(v, key, l)
  }

  /** The named applicability; `Unspecified` when none of the other three is named. */
  ghost predicate HasApplicability(v: Json, a: Applicability) {
    match a
    case MachineApplicable => TextAt(v, "applicability", "machine_applicable")
    case MaybeIncorrect => TextAt(v, "applicability", "maybe_incorrect")
    case HasPlaceholders => TextAt(v, "applicability", "has_placeholders")
    case Unspecified =>
      && !TextAt(v, "applicability", "machine_applicable") && !TextAt(v, "applicability", "maybe_incorrect")
      && !TextAt(v, "applicability", "has_placeholders")
  }

  lemma OptionalTextIs(v: Json, key: string, o: Option<string>)
    ensures GetStr(v, key) == o <==> OptionalText(v, key, o)
  {
    hide GetStr, TextAt;
    forall t ensures GetStr(v, key) == Some(t) <==> TextAt(v, key, t) {
      TextIs(v, key, t);
    }
    if GetStr(v, key).Some? {
      assert TextAt(v, key, GetStr(v, key).value);
    }
  }

  lemma OptionalLocationIs(v: Json, key: string, o: Option<Location>)
    ensures GetLocation(v, key) == o <==> OptionalLocation(v, key, o)
  {
    hide GetLocation, LocationAt;
    forall l ensures GetLocation(v, key) == Some(l) <==> LocationAt(v, key, l) {
      LocationIs(v, key, l);
    }
    if GetLocation(v, key).Some? {
      assert LocationAt(v, key, GetLocation(v, key).value);
    }
  }

  /**
   A suggestion is read exactly when it has a message; the rest is optional, and an applicability that is missing or not
   one of the four names is `Unspecified`.
   */
  lemma SuggestionDecodes(v: Json, s: Suggestion)
    ensures SuggestionFromJson(v) == Some(s) <==>
              && TextAt(v, "message", s.message) && OptionalLocation(v, "edit_range", s.editRange)
              && OptionalText(v, "replacement", s.replacement) && HasApplicability(v, s.applicability)
  {
    hide GetStr, GetLocation, TextAt, OptionalText, OptionalLocation;
    TextIs(v, "message", s.message);
    OptionalLocationIs(v, "edit_range", s.editRange);
    OptionalTextIs(v, "replacement", s.replacement);
    TextIs(v, "applicability", "machine_applicable");
    TextIs(v, "applicability", "maybe_incorrect");
    TextIs(v, "applicability", "has_placeholders");
  }

  // ---------------------------------------------------------------- lists

  /** The elements that can be decoded are kept in order; the others are dropped, and nothing after them. */
  lemma RelatedsKept(x: Json, a: seq<Json>, b: seq<Json>)
    ensures RelatedsFromJson([x]) == match RelatedFromJson(x) case Some(r) => [r] case None => []
    ensures RelatedsFromJson(a + b) == RelatedsFromJson(a) + RelatedsFromJson(b)
  {
    RelatedsConcat(a, b);
    hide RelatedFromJson;
    assert [x][1..] == [];
  }

  lemma {:induction false} RelatedsConcat(a: seq<Json>, b: seq<Json>)
    ensures RelatedsFromJson(a + b) == RelatedsFromJson(a) + RelatedsFromJson(b)
    decreases |a|
  {
    hide RelatedFromJson;
    if a == [] {
      assert a + b == b && [] + RelatedsFromJson(b) == RelatedsFromJson(b);
    } else {
      FirstOfConcat(a, b);
      RelatedsConcat(a[1..], b);
    }
  }

  lemma SuggestionsKept(x: Json, a: seq<Json>, b: seq<Json>)
    ensures SuggestionsFromJson([x]) == match SuggestionFromJson(x) case Some(s) => [s] case None => []
    ensures SuggestionsFromJson(a + b) == SuggestionsFromJson(a) + SuggestionsFromJson(b)
  {
    SuggestionsConcat(a, b);
    hide SuggestionFromJson;
    assert [x][1..] == [];
  }

  lemma {:induction false} SuggestionsConcat(a: seq<Json>, b: seq<Json>)
    ensures SuggestionsFromJson(a + b) == SuggestionsFromJson(a) + SuggestionsFromJson(b)
    decreases |a|
  {
    hide SuggestionFromJson;
    if a == [] {
      assert a + b == b && [] + SuggestionsFromJson(b) == SuggestionsFromJson(b);
    } else {
      FirstOfConcat(a, b);
      SuggestionsConcat(a[1..], b);
    }
  }

  lemma TextsKept(x: Json, a: seq<Json>, b: seq<Json>)
    ensures TextsFromJson([x]) == if x.Str? then [x.s] else []
    ensures TextsFromJson(a + b) == TextsFromJson(a) + TextsFromJson(b)
  {
    TextsConcat(a, b);
    assert [x][1..] == [];
  }

  lemma {:induction false} TextsConcat(a: seq<Json>, b: seq<Json>)
    ensures TextsFromJson(a + b) == TextsFromJson(a) + TextsFromJson(b)
    decreases |a|
  {
    if a == [] {
      assert a + b == b && [] + TextsFromJson(b) == TextsFromJson(b);
    } else {
      FirstOfConcat(a, b);
      TextsConcat(a[1..], b);
    }
  }

  lemma ChainKept(x: Json, a: seq<Json>, b: seq<Json>)
    ensures ChainFromJson([x]) == match FromJson(x) case Some(d) => [d] case None => []
    ensures ChainFromJson(a + b) == ChainFromJson(a) + ChainFromJson(b)
  {
    ChainConcat(a, b);
    hide FromJson;
    assert [x][1..] == [];
  }

  lemma {:induction false} ChainConcat(a: seq<Json>, b: seq<Json>)
    ensures ChainFromJson(a + b) == ChainFromJson(a) + ChainFromJson(b)
    decreases |a|
  {
    hide FromJson;
    if a == [] {
      assert a + b == b && [] + ChainFromJson(b) == ChainFromJson(b);
    } else {
      FirstOfConcat(a, b);
      ChainConcat(a[1..], b);
    }
  }

  // ---------------------------------------------------------------- whole diagnostics

  ghost predicate HasSeverity(v: Json, s: Severity) {
    match s
    case Error => TextAt(v, "severity", "error")
    case Warning => TextAt(v, "severity", "warning")
    case Info => TextAt(v, "severity", "info")
    case Hint => TextAt(v, "severity", "hint")
  }

  /** The location, or no file and four zeros when it is missing or cannot be read. */
  ghost predicate HasLocation(v: Json, l: Location) {
    LocationAt(v, "location", l) || (l == Location("", 0, 0, 0, 0) && forall k :: !LocationAt(v, "location", k))
  }

  /** The plain texts stand at one of two names; the second is looked at only when the first is absent. */
  ghost predicate TextsAt(v: Json, items: seq<Json>) {
    if exists x :: Holds(v, "suggestions_legacy", x) then ListAt(v, "suggestions_legacy", items)
    else ListAt(v, "legacy_suggestions", items)
  }

  ghost predicate HasLists(v: Json, d: Diagnostic) {
    && (exists xs :: ListAt(v, "related", xs) && d.related == RelatedsFromJson(xs))
    && (exists xs :: ListAt(v, "suggestions", xs) && d.suggestions == SuggestionsFromJson(xs))
    && (exists xs :: ListAt(v, "chain", xs) && d.chain == ChainFromJson(xs))
    && (exists xs :: TextsAt(v, xs) && d.textSuggestions == TextsFromJson(xs))
  }

  lemma SeverityIs(v: Json, s: Severity)
    ensures (GetStr(v, "severity").Some? && SeverityOf(GetStr(v, "severity").value) == Some(s)) <==> HasSeverity(v, s)
  {
    hide GetStr, TextAt;
    TextIs(v, "severity", "error");
    TextIs(v, "severity", "warning");
    TextIs(v, "severity", "info");
    TextIs(v, "severity", "hint");
  }

  lemma LocationOrUnknown(v: Json, l: Location)
    ensures (if GetLocation(v, "location").Some? then GetLocation(v, "location").value else UNKNOWN) == l <==> HasLocation(v, l)
  {
    hide GetLocation, LocationAt;
    OptionalLocationIs(v, "location", None);
    OptionalLocationIs(v, "location", Some(l));
    if GetLocation(v, "location").Some? {
      OptionalLocationIs(v, "location", GetLocation(v, "location"));
    }
  }

  /** The texts are looked for at the first name, and at the second when there is nothing at the first. */
  function TextItems(v: Json): seq<Json> {
    if Get(v, "suggestions_legacy").Some? then GetItems(v, "suggestions_legacy") else GetItems(v, "legacy_suggestions")
  }

  lemma TextsAre(v: Json, items: seq<Json>)
    ensures TextItems(v) == items <==> TextsAt(v, items)
  {
    hide Get, GetItems, Holds, ListAt;
    if Get(v, "suggestions_legacy").Some? {
      GetIs(v, "suggestions_legacy", Get(v, "suggestions_legacy").value);
    }
    if x :| Holds(v, "suggestions_legacy", x) {
      GetIs(v, "suggestions_legacy", x);
    }
    ItemsAre(v, "suggestions_legacy", items);
    ItemsAre(v, "legacy_suggestions", items);
  }

  lemma ListsAre(v: Json, d: Diagnostic)
    ensures (d.related == RelatedsFromJson(GetItems(v, "related"))
             && d.suggestions == SuggestionsFromJson(GetItems(v, "suggestions"))
             && d.chain == ChainFromJson(GetItems(v, "chain"))
             && d.textSuggestions == TextsFromJson(TextItems(v))) <==> HasLists(v, d)
  {
    hide GetItems, ListAt, TextsAt, RelatedsFromJson, SuggestionsFromJson, ChainFromJson, TextsFromJson, TextItems;
    forall xs ensures GetItems(v, "related") == xs <==> ListAt(v, "related", xs) { ItemsAre(v, "related", xs); }
    forall xs ensures GetItems(v, "suggestions") == xs <==> ListAt(v, "suggestions", xs) { ItemsAre(v, "suggestions", xs); }
    forall xs ensures GetItems(v, "chain") == xs <==> ListAt(v, "chain", xs) { ItemsAre(v, "chain", xs); }
    forall xs ensures TextItems(v) == xs <==> TextsAt(v, xs) { TextsAre(v, xs); }
    assert ListAt(v, "related", GetItems(v, "related")) && ListAt(v, "suggestions", GetItems(v, "suggestions"));
    assert ListAt(v, "chain", GetItems(v, "chain")) && TextsAt(v, TextItems(v));
  }

  lemma FromJsonParts(v: Json, d: Diagnostic)
    ensures FromJson(v) == Some(d) <==>
              && GetStr(v, "code") == Some(d.code)
              && GetStr(v, "severity").Some? && SeverityOf(GetStr(v, "severity").value) == Some(d.severity)
              && GetStr(v, "message") == Some(d.message) && GetStr(v, "source") == Some(d.source)
              && (if GetLocation(v, "location").Some? then GetLocation(v, "location").value else UNKNOWN) == d.location
              && d.related == RelatedsFromJson(GetItems(v, "related"))
              && d.suggestions == SuggestionsFromJson(GetItems(v, "suggestions"))
              && d.chain == ChainFromJson(GetItems(v, "chain")) && d.textSuggestions == TextsFromJson(TextItems(v))
  {
    hide GetStr, GetLocation, GetItems, Get, SeverityOf, RelatedsFromJson, SuggestionsFromJson, TextsFromJson;
    assert ChainFromJson([]) == [];
  }

  /**
   A value is read as a diagnostic exactly when it has a code, one of the four severities, a message and a source;
   everything else has a default.
   */
  lemma DiagnosticDecodes(v: Json, d: Diagnostic)
    ensures FromJson(v) == Some(d) <==>
              && TextAt(v, "code", d.code) && HasSeverity(v, d.severity)
              && TextAt(v, "message", d.message) && TextAt(v, "source", d.source)
              && HasLocation(v, d.location) && HasLists(v, d)
  {
    TextIs(v, "code", d.code);
    TextIs(v, "message", d.message);
    TextIs(v, "source", d.source);
    SeverityIs(v, d.severity);
    LocationOrUnknown(v, d.location);
    ListsAre(v, d);
    FromJsonParts(v, d);
    hide *;
  }

  // ---------------------------------------------------------------- what encoding writes

  /** The member at position `k`, when no earlier one has its name. */
  lemma MemberHolds(es: seq<Entry>, k: nat, key: string, x: Json)
    requires k < |es| && es[k] == Entry(key, x) && Distinct(Keys(es))
    ensures Holds(Object(es), key, x)
  {
    hide Keys, Distinct;
    forall j | 0 <= j < k ensures es[j].key != key {
      KeysDiffer(es, j, k);
    }
  }

  lemma KeysDiffer(es: seq<Entry>, j: nat, k: nat)
    requires j < k < |es| && Distinct(Keys(es))
    ensures es[j].key != es[k].key
  {
    assert Keys(es)[j] != Keys(es)[k];
  }

  lemma LocationNames(l: Location)
    ensures LocationToJson(l).Object?
    ensures Keys(LocationToJson(l).entries) == ["file", "start_line", "start_col", "end_line", "end_col"]
  {
    hide Keys;
  }

  /** The names of the members in order, and their values. */
  lemma LocationEncodes(l: Location)
    ensures var v := LocationToJson(l);
            && v.Object? && Keys(v.entries) == ["file", "start_line", "start_col", "end_line", "end_col"]
            && TextAt(v, "file", l.file)
            && Holds(v, "start_line", U64(l.startLine)) && Holds(v, "start_col", U64(l.startCol))
            && Holds(v, "end_line", U64(l.endLine)) && Holds(v, "end_col", U64(l.endCol))
  {
    LocationKeys(l);
    LocationNames(l);
    var es := LocationToJson(l).entries;
    hide Keys, Distinct, Holds;
    MemberHolds(es, 0, "file", Str(l.file));
    MemberHolds(es, 1, "start_line", U64(l.startLine));
    MemberHolds(es, 2, "start_col", U64(l.startCol));
    MemberHolds(es, 3, "end_line", U64(l.endLine));
    MemberHolds(es, 4, "end_col", U64(l.endCol));
  }

  lemma RelatedNames(r: Related)
    ensures RelatedToJson(r).Object? && Keys(RelatedToJson(r).entries) == ["location", "message"]
    ensures Distinct(Keys(RelatedToJson(r).entries))
  {
    hide LocationToJson, Keys;
    assert |"location"| == 8 && |"message"| == 7;
  }

  lemma RelatedEncodes(r: Related)
    ensures var v := RelatedToJson(r);
            && v.Object? && Keys(v.entries) == ["location", "message"]
            && Holds(v, "location", LocationToJson(r.location)) && TextAt(v, "message", r.message)
  {
    RelatedNames(r);
    var es := RelatedToJson(r).entries;
    hide LocationToJson, Keys, Distinct, Holds;
    MemberHolds(es, 0, "location", LocationToJson(r.location));
    MemberHolds(es, 1, "message", Str(r.message));
  }

  /** An absent edit range or replacement is not written; the applicability always is, under its own name. */
  lemma SuggestionEncodes(s: Suggestion)
    ensures var v := SuggestionToJson(s);
            && v.Object?
            && Keys(v.entries) == ["message", "applicability"] + (if s.editRange.Some? then ["edit_range"] else [])
                                  + (if s.replacement.Some? then ["replacement"] else [])
            && TextAt(v, "message", s.message)
            && (s.applicability.MachineApplicable? ==> TextAt(v, "applicability", "machine_applicable"))
            && (s.applicability.MaybeIncorrect? ==> TextAt(v, "applicability", "maybe_incorrect"))
            && (s.applicability.HasPlaceholders? ==> TextAt(v, "applicability", "has_placeholders"))
            && (s.applicability.Unspecified? ==> TextAt(v, "applicability", "unspecified"))
            && (s.editRange.Some? ==> Holds(v, "edit_range", LocationToJson(s.editRange.value)))
            && (s.replacement.Some? ==> TextAt(v, "replacement", s.replacement.value))
  {
    SuggestionKeys(s);
    SuggestionNames(s);
    var es := SuggestionToJson(s).entries;
    hide LocationToJson, Keys, Distinct, Holds;
    MemberHolds(es, 0, "message", Str(s.message));
    MemberHolds(es, 1, "applicability", Str(ApplicabilityText(s.applicability)));
    if s.editRange.Some? {
      MemberHolds(es, 2, "edit_range", LocationToJson(s.editRange.value));
    }
    if s.replacement.Some? {
      MemberHolds(es, |es| - 1, "replacement", Str(s.replacement.value));
    }
  }

  lemma SuggestionNames(s: Suggestion)
    ensures SuggestionToJson(s).Object?
    ensures Keys(SuggestionToJson(s).entries)
         == ["message", "applicability"] + (if s.editRange.Some? then ["edit_range"] else [])
            + (if s.replacement.Some? then ["replacement"] else [])
  {
    hide LocationToJson, Keys;
  }

  /** The names of the members in order; the plain texts are written only when there are some. */
  lemma DiagnosticNames(d: Diagnostic)
    ensures ToJson(d).Object?
    ensures Keys(ToJson(d).entries)
         == ["code", "severity", "message", "source", "location", "related", "suggestions", "chain"]
            + (if d.textSuggestions == [] then [] else ["suggestions_legacy"])
  {
    hide LocationToJson, RelatedsToJson, SuggestionsToJson, ChainToJson, TextsToJson, Keys;
  }

  lemma TextsEncode(d: Diagnostic)
    ensures var v := ToJson(d);
            && TextAt(v, "code", d.code) && TextAt(v, "severity", SeverityText(d.severity))
            && TextAt(v, "message", d.message) && TextAt(v, "source", d.source)
  {
    DiagnosticKeys(d);
    var es := ToJson(d).entries;
    hide LocationToJson, RelatedsToJson, SuggestionsToJson, ChainToJson, TextsToJson, Keys, Distinct, Holds, SeverityText;
    MemberHolds(es, 0, "code", Str(d.code));
    MemberHolds(es, 1, "severity", Str(SeverityText(d.severity)));
    MemberHolds(es, 2, "message", Str(d.message));
    MemberHolds(es, 3, "source", Str(d.source));
  }

  lemma PartsEncode(d: Diagnostic)
    ensures var v := ToJson(d);
            && Holds(v, "location", LocationToJson(d.location))
            && Holds(v, "related", Array(RelatedsToJson(d.related)))
            && Holds(v, "suggestions", Array(SuggestionsToJson(d.suggestions)))
            && Holds(v, "chain", Array(ChainToJson(d.chain)))
            && (d.textSuggestions != [] ==> Holds(v, "suggestions_legacy", Array(TextsToJson(d.textSuggestions))))
  {
    DiagnosticKeys(d);
    var es := ToJson(d).entries;
    hide LocationToJson, RelatedsToJson, SuggestionsToJson, ChainToJson, TextsToJson, Keys, Distinct, Holds, SeverityText;
    MemberHolds(es, 4, "location", LocationToJson(d.location));
    MemberHolds(es, 5, "related", Array(RelatedsToJson(d.related)));
    MemberHolds(es, 6, "suggestions", Array(SuggestionsToJson(d.suggestions)));
    MemberHolds(es, 7, "chain", Array(ChainToJson(d.chain)));
    if d.textSuggestions != [] {
      MemberHolds(es, 8, "suggestions_legacy", Array(TextsToJson(d.textSuggestions)));
    }
  }

  /** Every field is written under its own name, the severity by one of its four names. */
  lemma DiagnosticEncodes(d: Diagnostic)
    ensures var v := ToJson(d);
            && TextAt(v, "code", d.code) && HasSeverity(v, d.severity) && TextAt(v, "message", d.message)
            && TextAt(v, "source", d.source) && Holds(v, "location", LocationToJson(d.location))
            && Holds(v, "related", Array(RelatedsToJson(d.related)))
            && Holds(v, "suggestions", Array(SuggestionsToJson(d.suggestions)))
            && Holds(v, "chain", Array(ChainToJson(d.chain)))
            && (d.textSuggestions != [] ==> Holds(v, "suggestions_legacy", Array(TextsToJson(d.textSuggestions))))
  {
    TextsEncode(d);
    PartsEncode(d);
    hide ToJson, TextAt, Holds;
  }

  /** Lists are written element by element. */
  lemma ListsEncode(d: Diagnostic, k: nat)
    ensures |RelatedsToJson(d.related)| == |d.related| && |SuggestionsToJson(d.suggestions)| == |d.suggestions|
    ensures |ChainToJson(d.chain)| == |d.chain| && |TextsToJson(d.textSuggestions)| == |d.textSuggestions|
    ensures k < |d.related| ==> RelatedsToJson(d.related)[k] == RelatedToJson(d.related[k])
    ensures k < |d.suggestions| ==> SuggestionsToJson(d.suggestions)[k] == SuggestionToJson(d.suggestions[k])
    ensures k < |d.chain| ==> ChainToJson(d.chain)[k] == ToJson(d.chain[k])
    ensures k < |d.textSuggestions| ==> TextsToJson(d.textSuggestions)[k] == Str(d.textSuggestions[k])
  {
    hide RelatedToJson, SuggestionToJson, ToJson;
    if k < |d.chain| {
      ChainAt(d.chain, k);
    }
  }
}
