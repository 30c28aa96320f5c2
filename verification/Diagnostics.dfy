/** Diagnostics and their JSON form: a recursive type with optional fields and nested causal chains. */
module Diagnostics {
  import opened Common
  import opened JsonValue
  import opened JsonPrint
  import opened JsonGrammar
  import opened JsonRoundTrip

  datatype Severity = Error | Warning | Info | Hint

  datatype Applicability = MachineApplicable | MaybeIncorrect | HasPlaceholders | Unspecified

  datatype Location = Location(file: string, startLine: u32, startCol: u32, endLine: u32, endCol: u32)

  const UNKNOWN := Location("", 0, 0, 0, 0)

  datatype Related = Related(location: Location, message: string)

  datatype Suggestion = Suggestion(
    message: string, editRange: Option<Location>, replacement: Option<string>, applicability: Applicability)

  datatype Diagnostic = Diagnostic(
    code: string, severity: Severity, message: string, source: string, location: Location,
    related: seq<Related>, suggestions: seq<Suggestion>, chain: seq<Diagnostic>, textSuggestions: seq<string>)

  // ---------------------------------------------------------------- names of enum values

  function SeverityText(s: Severity): string {
    match s
    case Error => "error"
    case Warning => "warning"
    case Info => "info"
    case Hint => "hint"
  }

  function SeverityOf(t: string): Option<Severity> {
    if t == "error" then Some(Error)
    else if t == "warning" then Some(Warning)
    else if t == "info" then Some(Info)
    else if t == "hint" then Some(Hint)
    else None
  }

  function ApplicabilityText(a: Applicability): string {
    match a
    case MachineApplicable => "machine_applicable"
    case MaybeIncorrect => "maybe_incorrect"
    case HasPlaceholders => "has_placeholders"
    case Unspecified => "unspecified"
  }

  function ApplicabilityOf(t: string): Option<Applicability> {
    if t == "machine_applicable" then Some(MachineApplicable)
    else if t == "maybe_incorrect" then Some(MaybeIncorrect)
    else if t == "has_placeholders" then Some(HasPlaceholders)
    else if t == "unspecified" then Some(Unspecified)
    else None
  }

  // ---------------------------------------------------------------- fields

  function GetStr(v: Json, key: string): Option<string> {
    match Get(v, key)
    case Some(x) => AsStr(x)
    case None => None
  }

  /** `as_u64` followed by `as u32`, which keeps the low 32 bits. */
  function GetU32(v: Json, key: string): Option<u32> {
    match Get(v, key)
    case None => None
    case Some(x) =>
      match AsU64(x)
      case Some(n) => Some(n % 0x1_0000_0000)
      case None => None
  }

  /** The elements of an array field; anything else counts as no elements. */
  function GetItems(v: Json, key: string): seq<Json> {
    match Get(v, key)
    case Some(Array(items)) => items
    case _ => []
  }

  // ---------------------------------------------------------------- locations

  function LocationToJson(l: Location): Json {
    Object([
      Entry("file", Str(l.file)),
      Entry("start_line", U64(l.startLine)),
      Entry("start_col", U64(l.startCol)),
      Entry("end_line", U64(l.endLine)),
      Entry("end_col", U64(l.endCol))])
  }

  function LocationFromJson(v: Json): Option<Location> {
    match (GetStr(v, "file"), GetU32(v, "start_line"), GetU32(v, "start_col"), GetU32(v, "end_line"), GetU32(v, "end_col"))
    case (Some(file), Some(sl), Some(sc), Some(el), Some(ec)) => Some(Location(file, sl, sc, el, ec))
    case _ => None
  }

  function GetLocation(v: Json, key: string): Option<Location> {
    match Get(v, key)
    case Some(x) => LocationFromJson(x)
    case None => None
  }

  // ---------------------------------------------------------------- related entries and suggestions

  function RelatedToJson(r: Related): Json {
    Object([Entry("location", LocationToJson(r.location)), Entry("message", Str(r.message))])
  }

  function RelatedFromJson(v: Json): Option<Related> {
    match (GetLocation(v, "location"), GetStr(v, "message"))
    case (Some(location), Some(message)) => Some(Related(location, message))
    case _ => None
  }

  function SuggestionToJson(s: Suggestion): Json {
    Object(
      [Entry("message", Str(s.message)), Entry("applicability", Str(ApplicabilityText(s.applicability)))]
      + (if s.editRange.Some? then [Entry("edit_range", LocationToJson(s.editRange.value))] else [])
      + (if s.replacement.Some? then [Entry("replacement", Str(s.replacement.value))] else []))
  }

  function SuggestionFromJson(v: Json): Option<Suggestion> {
    match GetStr(v, "message")
    case None => None
    case Some(message) =>
      var applicability :=
        match GetStr(v, "applicability")
        case Some(t) => if ApplicabilityOf(t).Some? then ApplicabilityOf(t).value else Unspecified
        case None => Unspecified;
      Some(Suggestion(message, GetLocation(v, "edit_range"), GetStr(v, "replacement"), applicability))
  }

  // ---------------------------------------------------------------- lists

  function RelatedsToJson(rs: seq<Related>): (r: seq<Json>) {
    seq(|rs|, i requires 0 <= i < |rs| => RelatedToJson(rs[i]))
  }

  function SuggestionsToJson(ss: seq<Suggestion>): (r: seq<Json>) {
    seq(|ss|, i requires 0 <= i < |ss| => SuggestionToJson(ss[i]))
  }

  function TextsToJson(ts: seq<string>): (r: seq<Json>) {
    seq(|ts|, i requires 0 <= i < |ts| => Str(ts[i]))
  }

  /** `filter_map`: what can be decoded, in order; the rest is dropped. */
  function RelatedsFromJson(items: seq<Json>): seq<Related> {
    if items == [] then []
    else
      match RelatedFromJson(items[0])
      case Some(r) => [r] + RelatedsFromJson(items[1..])
      case None => RelatedsFromJson(items[1..])
  }

  function SuggestionsFromJson(items: seq<Json>): seq<Suggestion> {
    if items == [] then []
    else
      match SuggestionFromJson(items[0])
      case Some(s) => [s] + SuggestionsFromJson(items[1..])
      case None => SuggestionsFromJson(items[1..])
  }

  function TextsFromJson(items: seq<Json>): seq<string> {
    if items == [] then []
    else
      match AsStr(items[0])
      case Some(t) => [t] + TextsFromJson(items[1..])
      case None => TextsFromJson(items[1..])
  }

  // ---------------------------------------------------------------- diagnostics

  function ToJson(d: Diagnostic): Json
    decreases d, 0
  {
    Object(
      [ Entry("code", Str(d.code)),
        Entry("severity", Str(SeverityText(d.severity))),
        Entry("message", Str(d.message)),
        Entry("source", Str(d.source)),
        Entry("location", LocationToJson(d.location)),
        Entry("related", Array(RelatedsToJson(d.related))),
        Entry("suggestions", Array(SuggestionsToJson(d.suggestions))),
        Entry("chain", Array(ChainToJson(d.chain)))]
      + (if d.textSuggestions == [] then []
         else [Entry("suggestions_legacy", Array(TextsToJson(d.textSuggestions)))]))
  }

  function ChainToJson(ds: seq<Diagnostic>): (r: seq<Json>)
    ensures |r| == |ds|
    decreases ds, 1
  {
    if ds == [] then [] else [ToJson(ds[0])] + ChainToJson(ds[1..])
  }

  function FromJson(v: Json): Option<Diagnostic>
    decreases v, 0
  {
    match (GetStr(v, "code"), GetStr(v, "severity"), GetStr(v, "message"), GetStr(v, "source"))
    case (Some(code), Some(level), Some(message), Some(source)) =>
      (match SeverityOf(level)
       case None => None
       case Some(severity) =>
         var location := if GetLocation(v, "location").Some? then GetLocation(v, "location").value else UNKNOWN;
         var texts := if Get(v, "suggestions_legacy").Some? then GetItems(v, "suggestions_legacy")
                      else GetItems(v, "legacy_suggestions");
         var causes := GetItems(v, "chain");
         ItemsInside(v, "chain");
         Some(Diagnostic(
           code, severity, message, source, location,
           RelatedsFromJson(GetItems(v, "related")),
           SuggestionsFromJson(GetItems(v, "suggestions")),
           if causes == [] then [] else ChainFromJson(causes),
           TextsFromJson(texts))))
    case _ => None
  }

  function ChainFromJson(items: seq<Json>): seq<Diagnostic>
    decreases items, 1
  {
    if items == [] then []
    else
      match FromJson(items[0])
      case Some(d) => [d] + ChainFromJson(items[1..])
      case None => ChainFromJson(items[1..])
  }

  /** A field is structurally inside its object, so decoding terminates. */
  lemma ItemsInside(v: Json, key: string)
    ensures GetItems(v, key) != [] ==> (v decreases to GetItems(v, key))
  {
    if GetItems(v, key) != [] {
      LookupInside(v.entries, key);
      var j :| 0 <= j < |v.entries| && v.entries[j].value == Lookup(v.entries, key).value;
      assert (v decreases to v.entries[j].value);
    }
  }

  lemma LookupInside(es: seq<Entry>, key: string)
    ensures Lookup(es, key).Some? ==> exists j :: 0 <= j < |es| && es[j].value == Lookup(es, key).value
  {
    if es != [] && es[0].key != key {
      LookupInside(es[1..], key);
      if Lookup(es, key).Some? {
        var j :| 0 <= j < |es[1..]| && es[1..][j].value == Lookup(es[1..], key).value;
        assert es[j + 1].value == Lookup(es, key).value;
      }
    }
  }

  // ---------------------------------------------------------------- looking up a field

  lemma {:induction false} LookupDistinct(es: seq<Entry>, j: nat)
    requires j < |es| && Distinct(Keys(es))
    ensures Lookup(es, es[j].key) == Some(es[j].value)
  {
    if j > 0 {
      assert Keys(es)[0] != Keys(es)[j];
      assert Keys(es[1..]) == Keys(es)[1..];
      LookupDistinct(es[1..], j - 1);
    }
  }

  lemma LookupAbsent(es: seq<Entry>, key: string)
    requires forall j :: 0 <= j < |es| ==> es[j].key != key
    ensures Lookup(es, key) == None
  {
    assert key !in Keys(es);
  }

  // ---------------------------------------------------------------- the parts read back

  lemma LocationReadsBack(l: Location)
    ensures LocationFromJson(LocationToJson(l)) == Some(l)
  {
    hide Lookup, Keys, Distinct;
    var es := LocationToJson(l).entries;
    LocationKeys(l);
    LookupDistinct(es, 0);
    LookupDistinct(es, 1);
    LookupDistinct(es, 2);
    LookupDistinct(es, 3);
    LookupDistinct(es, 4);
  }

  /** Printable, and how deep. */
  predicate Plain(v: Json) { Canonical(v) && FloatFree(v) }

  lemma {:induction false} PlainObject(es: seq<Entry>)
    requires Distinct(Keys(es)) && forall j :: 0 <= j < |es| ==> Plain(es[j].value)
    ensures Plain(Object(es))
  {
    hide Keys, Distinct;
    forall e | e in es ensures Canonical(e.value) && FloatFree(e.value) {
      var j :| 0 <= j < |es| && es[j] == e;
      assert Plain(es[j].value);
    }
  }

  lemma {:induction false} PlainArray(items: seq<Json>)
    requires forall j :: 0 <= j < |items| ==> Plain(items[j])
    ensures Plain(Array(items))
  {
    forall x | x in items ensures Canonical(x) && FloatFree(x) {
      var j :| 0 <= j < |items| && items[j] == x;
      assert Plain(items[j]);
    }
  }

  lemma LocationShape(l: Location)
    ensures Plain(LocationToJson(l)) && Depth(LocationToJson(l)) == 1
  {
    hide Keys, Distinct, DepthEntries;
    LocationKeys(l);
    PlainObject(LocationToJson(l).entries);
    DepthIs(LocationToJson(l).entries, 1, 0);
  }

  lemma LocationKeys(l: Location)
    ensures Distinct(Keys(LocationToJson(l).entries))
  {
    hide Keys;
    var ks := Keys(LocationToJson(l).entries);
    assert |ks[0]| == 4 && |ks[1]| == 10 && |ks[2]| == 9 && |ks[3]| == 8 && |ks[4]| == 7;
  }

  /** The depth of an object is at most `n` exactly when each member is at most one less deep. */
  lemma {:induction false} DepthAtMost(es: seq<Entry>, n: nat)
    ensures DepthEntries(es) <= n <==> forall j :: 0 <= j < |es| ==> 1 + Depth(es[j].value) <= n
  {
    if es != [] {
      DepthAtMost(es[1..], n);
      assert forall j :: 0 <= j < |es[1..]| ==> es[1..][j] == es[j + 1];
      assert forall j :: 1 <= j < |es| ==> es[j] == es[1..][j - 1];
    }
  }

  lemma {:induction false} ItemsAtMost(items: seq<Json>, n: nat)
    ensures DepthItems(items) <= n <==> forall j :: 0 <= j < |items| ==> 1 + Depth(items[j]) <= n
  {
    if items != [] {
      ItemsAtMost(items[1..], n);
      assert forall j :: 0 <= j < |items[1..]| ==> items[1..][j] == items[j + 1];
      assert forall j :: 1 <= j < |items| ==> items[j] == items[1..][j - 1];
    }
  }

  lemma DepthIs(es: seq<Entry>, n: nat, w: nat)
    requires w < |es| && 1 + Depth(es[w].value) == n
    requires forall j :: 0 <= j < |es| ==> 1 + Depth(es[j].value) <= n
    ensures DepthEntries(es) == n
  {
    DepthAtMost(es, n);
    if n > 0 {
      DepthAtMost(es, n - 1);
    }
  }

  lemma RelatedReadsBack(r: Related)
    ensures RelatedFromJson(RelatedToJson(r)) == Some(r)
    ensures Plain(RelatedToJson(r)) && Depth(RelatedToJson(r)) == 2
  {
    hide LocationToJson, LocationFromJson, Lookup, DepthEntries;
    var es := RelatedToJson(r).entries;
    LocationReadsBack(r.location);
    LocationShape(r.location);
    assert |Keys(es)[0]| == 8 && |Keys(es)[1]| == 7;
    LookupDistinct(es, 0);
    LookupDistinct(es, 1);
    PlainObject(es);
    DepthIs(es, 2, 0);
  }

  lemma SuggestionReadsBack(s: Suggestion)
    ensures SuggestionFromJson(SuggestionToJson(s)) == Some(s)
  {
    hide LocationToJson, LocationFromJson, Lookup, Keys, Distinct;
    var es := SuggestionToJson(s).entries;
    SuggestionKeys(s);
    LookupDistinct(es, 0);
    LookupDistinct(es, 1);
    if s.editRange.Some? {
      LocationReadsBack(s.editRange.value);
      LookupDistinct(es, 2);
    } else {
      LookupAbsent(es, "edit_range");
    }
    if s.replacement.Some? {
      LookupDistinct(es, |es| - 1);
    } else {
      LookupAbsent(es, "replacement");
    }
    assert ApplicabilityOf(ApplicabilityText(s.applicability)) == Some(s.applicability) by {
      ApplicabilityReadsBack(s.applicability);
    }
  }

  lemma ApplicabilityReadsBack(a: Applicability)
    ensures ApplicabilityOf(ApplicabilityText(a)) == Some(a)
  {
    var t := ApplicabilityText(a);
    assert |t| == match a case MachineApplicable => 18 case MaybeIncorrect => 15 case HasPlaceholders => 16 case Unspecified => 11;
  }

  lemma SuggestionShape(s: Suggestion)
    ensures Plain(SuggestionToJson(s)) && 1 <= Depth(SuggestionToJson(s)) <= 2
  {
    hide LocationToJson, Keys, Distinct, DepthEntries;
    var es := SuggestionToJson(s).entries;
    if s.editRange.Some? {
      LocationShape(s.editRange.value);
    }
    SuggestionKeys(s);
    PlainObject(es);
    DepthAtMost(es, 2);
    DepthAtMost(es, 0);
    assert es[0].value == Str(s.message);
  }

  lemma SuggestionKeys(s: Suggestion)
    ensures Distinct(Keys(SuggestionToJson(s).entries))
  {
    hide LocationToJson, Keys;
    var ks := Keys(SuggestionToJson(s).entries);
    assert |ks[0]| == 7 && |ks[1]| == 13;
    assert s.editRange.Some? ==> |ks[2]| == 10;
    assert s.replacement.Some? ==> |ks[|ks| - 1]| == 11;
  }

  lemma {:induction false} RelatedsReadBack(rs: seq<Related>)
    ensures RelatedsFromJson(RelatedsToJson(rs)) == rs
    decreases |rs|
  {
    hide RelatedToJson, RelatedFromJson;
    if rs != [] {
      RelatedReadsBack(rs[0]);
      RelatedsReadBack(rs[1..]);
      assert RelatedsToJson(rs)[1..] == RelatedsToJson(rs[1..]);
    }
  }

  lemma {:induction false} SuggestionsReadBack(ss: seq<Suggestion>)
    ensures SuggestionsFromJson(SuggestionsToJson(ss)) == ss
    decreases |ss|
  {
    hide SuggestionToJson, SuggestionFromJson;
    if ss != [] {
      SuggestionReadsBack(ss[0]);
      SuggestionsReadBack(ss[1..]);
      assert SuggestionsToJson(ss)[1..] == SuggestionsToJson(ss[1..]);
    }
  }

  lemma {:induction false} TextsReadBack(ts: seq<string>)
    ensures TextsFromJson(TextsToJson(ts)) == ts
    decreases |ts|
  {
    if ts != [] {
      TextsReadBack(ts[1..]);
      assert TextsToJson(ts)[1..] == TextsToJson(ts[1..]);
    }
  }

  // ---------------------------------------------------------------- whole diagnostics

  lemma DiagnosticKeys(d: Diagnostic)
    ensures Distinct(Keys(ToJson(d).entries))
  {
    hide LocationToJson, RelatedsToJson, SuggestionsToJson, ChainToJson, TextsToJson, Keys;
    var es := ToJson(d).entries;
    var ks := Keys(es);
    // the first letter and the length tell the keys apart
    var tags := [('c', 4), ('s', 8), ('m', 7), ('s', 6), ('l', 8), ('r', 7), ('s', 11), ('c', 5), ('s', 18)];
    assert es[0].key[0] == es[7].key[0] == 'c' && es[2].key[0] == 'm' && es[4].key[0] == 'l' && es[5].key[0] == 'r';
    assert es[1].key[0] == es[3].key[0] == es[6].key[0] == 's' && (|es| == 9 ==> es[8].key[0] == 's');
    forall j | 0 <= j < |ks| ensures ks[j] != "" && (ks[j][0], |ks[j]|) == tags[j] {
      assert ks[j] == es[j].key;
    }
  }

  /** Decoding undoes encoding, for every diagnostic and however deep its chains. */
  lemma {:induction false} FromToJson(d: Diagnostic)
    ensures FromJson(ToJson(d)) == Some(d)
    decreases d, 0
  {
    hide LocationToJson, LocationFromJson, RelatedsToJson, SuggestionsToJson, ChainToJson, TextsToJson;
    hide RelatedsFromJson, SuggestionsFromJson, ChainFromJson, TextsFromJson, Lookup, Keys, Distinct;
    var v := ToJson(d);
    DiagnosticKeys(d);
    LookupDistinct(v.entries, 0);
    LookupDistinct(v.entries, 1);
    LookupDistinct(v.entries, 2);
    LookupDistinct(v.entries, 3);
    LookupDistinct(v.entries, 4);
    LookupDistinct(v.entries, 5);
    LookupDistinct(v.entries, 6);
    LookupDistinct(v.entries, 7);
    SeverityReadsBack(d.severity);
    LocationReadsBack(d.location);
    RelatedsReadBack(d.related);
    SuggestionsReadBack(d.suggestions);
    ChainReadsBack(d.chain);
    TextsFieldReadsBack(d);
  }

  lemma SeverityReadsBack(s: Severity)
    ensures SeverityOf(SeverityText(s)) == Some(s)
  {
    assert SeverityText(s)[0] == match s case Error => 'e' case Warning => 'w' case Info => 'i' case Hint => 'h';
  }

  lemma TextsFieldReadsBack(d: Diagnostic)
    ensures var v := ToJson(d);
            TextsFromJson(if Get(v, "suggestions_legacy").Some? then GetItems(v, "suggestions_legacy")
                          else GetItems(v, "legacy_suggestions")) == d.textSuggestions
  {
    hide LocationToJson, RelatedsToJson, SuggestionsToJson, ChainToJson, TextsToJson, Lookup, Keys, Distinct;
    var es := ToJson(d).entries;
    if d.textSuggestions == [] {
      forall j | 0 <= j < |es| ensures |es[j].key| < 18 {}
      LookupAbsent(es, "suggestions_legacy");
      LookupAbsent(es, "legacy_suggestions");
    } else {
      DiagnosticKeys(d);
      LookupDistinct(es, 8);
      TextsReadBack(d.textSuggestions);
    }
  }

  lemma {:induction false} ChainReadsBack(ds: seq<Diagnostic>)
    ensures ChainToJson(ds) == [] <==> ds == []
    ensures ChainFromJson(ChainToJson(ds)) == ds
    decreases ds, 1
  {
    hide ToJson, FromJson;
    if ds != [] {
      FromToJson(ds[0]);
      ChainReadsBack(ds[1..]);
      assert ChainToJson(ds)[1..] == ChainToJson(ds[1..]);
    }
  }

  // ---------------------------------------------------------------- depth of the printed form

  lemma RelatedsShape(rs: seq<Related>)
    ensures Plain(Array(RelatedsToJson(rs)))
    ensures DepthItems(RelatedsToJson(rs)) == if rs == [] then 0 else 3
  {
    hide RelatedToJson, Plain, Depth, DepthItems;
    var items := RelatedsToJson(rs);
    forall j | 0 <= j < |items| ensures Plain(items[j]) && Depth(items[j]) == 2 {
      RelatedReadsBack(rs[j]);
    }
    PlainArray(items);
    ItemsAtMost(items, if rs == [] then 0 else 3);
    ItemsAtMost(items, 2);
    assert rs != [] ==> Depth(items[0]) == 2;
  }

  lemma SuggestionsShape(ss: seq<Suggestion>)
    ensures Plain(Array(SuggestionsToJson(ss)))
    ensures if ss == [] then DepthItems(SuggestionsToJson(ss)) == 0 else 2 <= DepthItems(SuggestionsToJson(ss)) <= 3
  {
    hide SuggestionToJson, Plain, Depth, DepthItems;
    var items := SuggestionsToJson(ss);
    forall j | 0 <= j < |items| ensures Plain(items[j]) && 1 <= Depth(items[j]) <= 2 {
      SuggestionShape(ss[j]);
    }
    PlainArray(items);
    ItemsAtMost(items, if ss == [] then 0 else 3);
    ItemsAtMost(items, 1);
    assert ss != [] ==> Depth(items[0]) >= 1;
  }

  lemma TextsShape(ts: seq<string>)
    ensures Plain(Array(TextsToJson(ts))) && DepthItems(TextsToJson(ts)) <= 1
  {
    var items := TextsToJson(ts);
    PlainArray(items);
    ItemsAtMost(items, 1);
  }

  lemma {:induction false} ChainAt(ds: seq<Diagnostic>, j: nat)
    requires j < |ds|
    ensures ChainToJson(ds)[j] == ToJson(ds[j])
  {
    hide ToJson;
    if j > 0 {
      ChainAt(ds[1..], j - 1);
    }
  }

  /** The encoding has distinct keys, no negative-typed integer that is not negative, and no float. */
  lemma {:induction false} ToJsonPlain(d: Diagnostic)
    ensures Plain(ToJson(d))
    decreases d
  {
    hide Plain, LocationToJson, RelatedsToJson, SuggestionsToJson, ChainToJson, TextsToJson, Keys, Distinct;
    var chain := ChainToJson(d.chain);
    forall j | 0 <= j < |chain| ensures Plain(chain[j]) {
      ChainAt(d.chain, j);
      ToJsonPlain(d.chain[j]);
    }
    PlainArray(chain);
    DiagnosticKeys(d);
    LocationShape(d.location);
    RelatedsShape(d.related);
    SuggestionsShape(d.suggestions);
    TextsShape(d.textSuggestions);
    PlainText(d.code);
    PlainText(SeverityText(d.severity));
    PlainText(d.message);
    PlainText(d.source);
    PlainObject(ToJson(d).entries);
  }

  lemma PlainText(t: string)
    ensures Plain(Str(t))
  {
  }

  /** How many chains are nested inside one another. */
  function Nesting(d: Diagnostic): nat
    decreases d, 0
  {
    NestingOf(d.chain)
  }

  function NestingOf(ds: seq<Diagnostic>): nat
    decreases ds, 1
  {
    if ds == [] then 0 else Max(1 + Nesting(ds[0]), NestingOf(ds[1..]))
  }

  /** The diagnostics `n` causal links below `d` carry neither related entries nor structured suggestions. */
  predicate BareAt(d: Diagnostic, n: nat)
    decreases n
  {
    if n == 0 then d.related == [] && d.suggestions == []
    else forall j :: 0 <= j < |d.chain| ==> BareAt(d.chain[j], n - 1)
  }

  lemma {:induction false} NestingAtMost(ds: seq<Diagnostic>, n: nat)
    ensures NestingOf(ds) <= n <==> forall j :: 0 <= j < |ds| ==> 1 + Nesting(ds[j]) <= n
    decreases |ds|
  {
    if ds != [] {
      NestingAtMost(ds[1..], n);
      assert forall j :: 0 <= j < |ds[1..]| ==> ds[1..][j] == ds[j + 1];
      assert forall j :: 1 <= j < |ds| ==> ds[j] == ds[1..][j - 1];
    }
  }

  /** One level: the members other than the chain fit in four levels, and in two exactly when bare. */
  lemma DepthStep(d: Diagnostic, n: nat)
    ensures Depth(ToJson(d)) <= 2 * n + 2 <==>
            (n == 0 ==> d.related == [] && d.suggestions == []) && DepthItems(ChainToJson(d.chain)) <= 2 * n + 1
  {
    hide LocationToJson, RelatedsToJson, SuggestionsToJson, ChainToJson, TextsToJson, DepthEntries, DepthItems;
    var es := ToJson(d).entries;
    DepthAtMost(es, 2 * n + 2);
    LocationShape(d.location);
    RelatedsShape(d.related);
    SuggestionsShape(d.suggestions);
    TextsShape(d.textSuggestions);
    assert Depth(es[5].value) == DepthItems(RelatedsToJson(d.related));
    assert Depth(es[6].value) == DepthItems(SuggestionsToJson(d.suggestions));
    assert Depth(es[7].value) == DepthItems(ChainToJson(d.chain));
  }

  /** Each causal link costs two levels of JSON; the last diagnostic fits in two more exactly when it is bare. */
  lemma {:induction false} DepthOfChains(d: Diagnostic, n: nat)
    ensures Depth(ToJson(d)) <= 2 * n + 2 <==> Nesting(d) <= n && BareAt(d, n)
    decreases d
  {
    hide ToJson, Depth, DepthItems, ChainToJson, NestingOf;
    DepthStep(d, n);
    var chain := ChainToJson(d.chain);
    ItemsAtMost(chain, 2 * n + 1);
    NestingAtMost(d.chain, n);
    if n == 0 {
      if d.chain != [] {
        ChainAt(d.chain, 0);
        AtLeastTwo(d.chain[0]);
      }
    } else {
      forall j | 0 <= j < |chain|
        ensures 1 + Depth(chain[j]) <= 2 * n + 1 <==> Nesting(d.chain[j]) <= n - 1 && BareAt(d.chain[j], n - 1)
      {
        ChainAt(d.chain, j);
        DepthOfChains(d.chain[j], n - 1);
      }
    }
  }

  lemma AtLeastTwo(d: Diagnostic)
    ensures Depth(ToJson(d)) >= 2
  {
    hide LocationToJson, RelatedsToJson, SuggestionsToJson, ChainToJson, TextsToJson, DepthEntries;
    DepthAtMost(ToJson(d).entries, 1);
    LocationShape(d.location);
    assert ToJson(d).entries[4].value == LocationToJson(d.location);
  }

  // ---------------------------------------------------------------- through text

  datatype Decoded = Decoded(diagnostic: Diagnostic) | Unreadable(error: JsonError) | NotADiagnostic

  /** `from_json_str`. */
  function FromJsonStr(lib: FloatLib, text: string): Decoded {
    match ParseText(lib, text)
    case Err(e) => Unreadable(e)
    case Ok(v, _) =>
      match FromJson(v)
      case Some(d) => Decoded(d)
      case None => NotADiagnostic
  }

  /**
   Writing a diagnostic as text, compact or pretty, and reading it back returns it exactly when its causal chains
   nest at most 255 deep and every diagnostic 255 links down is bare. Otherwise the text is refused as too deep.
   */
  lemma TextRoundTrip(lib: FloatLib, d: Diagnostic, l: Layout)
    ensures var r := FromJsonStr(lib, Render(lib, ToJson(d), l));
            if Nesting(d) <= 255 && BareAt(d, 255) then r == Decoded(d)
            else r.Unreadable? && r.error.kind == DepthExceeded
  {
    hide ParseText, Render, ToJson, FromJson, Depth, Nesting, BareAt, Canonical, FloatFree, FloatsReadBack, Normal;
    ToJsonPlain(d);
    FloatFreeReadsBack(lib, ToJson(d));
    ParseRender(lib, ToJson(d), l);
    NormalFixed(ToJson(d));
    DepthOfChains(d, 255);
    FromToJson(d);
  }

  /** So at most 254 links always survive, and 256 or more never do. */
  lemma NestingLimits(lib: FloatLib, d: Diagnostic, l: Layout)
    ensures Nesting(d) <= 254 ==> FromJsonStr(lib, Render(lib, ToJson(d), l)) == Decoded(d)
    ensures Nesting(d) >= 256 ==> FromJsonStr(lib, Render(lib, ToJson(d), l)).Unreadable?
  {
    hide FromJsonStr, Render, ToJson, Nesting;
    TextRoundTrip(lib, d, l);
    if Nesting(d) <= 254 {
      ShortIsBare(d, 255);
    }
  }

  lemma {:induction false} ShortIsBare(d: Diagnostic, n: nat)
    requires Nesting(d) < n
    ensures BareAt(d, n)
    decreases n
  {
    NestingAtMost(d.chain, n - 1);
    forall j | 0 <= j < |d.chain| ensures BareAt(d.chain[j], n - 1) {
      ShortIsBare(d.chain[j], n - 1);
    }
  }
}
