/** JSON values, their accessors, and what the parser's duplicate-key rule makes of a member list. */
module JsonValue {
  import opened Common

  /** Object members stay in insertion order. A float is its IEEE bit pattern. */
  datatype Json =
    | Null
    | Bool(b: bool)
    | I64(i: i64)
    | U64(u: u64)
    | F64(bits: nat)
    | Str(s: string)
    | Array(items: seq<Json>)
    | Object(entries: seq<Entry>)

  datatype Entry = Entry(key: string, value: Json)

  // ---------------------------------------------------------------- accessors

  /** The value of the first entry with this key. */
  function Lookup(es: seq<Entry>, key: string): (r: Option<Json>)
    ensures r.None? <==> key !in Keys(es)
  {
    if es == [] then None
    else if es[0].key == key then Some(es[0].value)
    else Lookup(es[1..], key)
  }

  /** `find` returns the first entry with the key, if there is one. */
  lemma {:induction false} LookupFirst(es: seq<Entry>, key: string, j: nat)
    requires j <= |es| && (forall i :: 0 <= i < j ==> es[i].key != key) && (j < |es| ==> es[j].key == key)
    ensures Lookup(es, key) == if j < |es| then Some(es[j].value) else None
  {
    if j > 0 {
      LookupFirst(es[1..], key, j - 1);
    }
  }

  function Get(v: Json, key: string): Option<Json> {
    if v.Object? then Lookup(v.entries, key) else None
  }

  function AsStr(v: Json): Option<string> {
    if v.Str? then Some(v.s) else None
  }

  function AsU64(v: Json): Option<u64> {
    if v.U64? then Some(v.u)
    else if v.I64? && v.i >= 0 then Some(v.i)
    else None
  }

  function Keys(es: seq<Entry>): (ks: seq<string>)
    ensures |ks| == |es|
    ensures forall j :: 0 <= j < |es| ==> ks[j] == es[j].key
  {
    if es == [] then [] else [es[0].key] + Keys(es[1..])
  }

  // ---------------------------------------------------------------- insertion

  /** Overwrite the first entry with this key, or append a new one. */
  function Insert(es: seq<Entry>, key: string, value: Json): (r: seq<Entry>)
  {
    if es == [] then [Entry(key, value)]
    else if es[0].key == key then [Entry(key, value)] + es[1..]
    else [es[0]] + Insert(es[1..], key, value)
  }

  /** The entries left after inserting every member in order. */
  function Fold(acc: seq<Entry>, ms: seq<Entry>): (r: seq<Entry>)
    decreases |ms|
  {
    if ms == [] then acc
    else Fold(Insert(acc, ms[0].key, ms[0].value), ms[1..])
  }

  /**
   `insert` as the source runs it: a scan for the first entry with the key, then an overwrite in
   place or a push.
   */
  method InsertInPlace(es: seq<Entry>, key: string, value: Json) returns (r: seq<Entry>)
    ensures r == Insert(es, key, value)
  {
    var i := 0;
    while i < |es| && es[i].key != key
      invariant 0 <= i <= |es|
      invariant forall j :: 0 <= j < i ==> es[j].key != key
    {
      i := i + 1;
    }
    InsertAtFirst(es, key, value, i);
    r := if i < |es| then es[i := Entry(key, value)] else es + [Entry(key, value)];
  }

  /** `Insert` touches the first entry with the key and nothing else. */
  lemma {:induction false} InsertAtFirst(es: seq<Entry>, key: string, value: Json, i: nat)
    requires i <= |es| && forall j :: 0 <= j < i ==> es[j].key != key
    requires i < |es| ==> es[i].key == key
    ensures Insert(es, key, value) == if i < |es| then es[i := Entry(key, value)] else es + [Entry(key, value)]
  {
    if i > 0 {
      InsertAtFirst(es[1..], key, value, i - 1);
    }
  }

  predicate Distinct(ks: seq<string>) {
    forall i, j :: 0 <= i < j < |ks| ==> ks[i] != ks[j]
  }

  /** What `Insert` does to every key's value, and to the key order. */
  lemma {:induction false} InsertSpec(es: seq<Entry>, key: string, value: Json, other: string)
    ensures Lookup(Insert(es, key, value), other) == if other == key then Some(value) else Lookup(es, other)
    ensures Keys(Insert(es, key, value)) == if key in Keys(es) then Keys(es) else Keys(es) + [key]
  {
    if es != [] {
      InsertSpec(es[1..], key, value, other);
      assert Insert(es, key, value)[1..] == if es[0].key == key then es[1..] else Insert(es[1..], key, value);
      assert Keys(es) == [es[0].key] + Keys(es[1..]);
    } else {
      assert Insert(es, key, value)[1..] == [];
    }
  }

  /** The last value a member list gives a key. */
  function LastValue(ms: seq<Entry>, key: string): Option<Json> {
    if ms == [] then None
    else if ms[|ms| - 1].key == key then Some(ms[|ms| - 1].value)
    else LastValue(ms[..|ms| - 1], key)
  }

  /** The keys of a list, each kept where it first occurs. */
  function FirstOccurrences(ks: seq<string>): (r: seq<string>)
    ensures forall k :: k in r <==> k in ks
    ensures Distinct(r)
  {
    if ks == [] then []
    else
      var init := FirstOccurrences(ks[..|ks| - 1]);
      assert ks == ks[..|ks| - 1] + [ks[|ks| - 1]];
      if ks[|ks| - 1] in init then init else init + [ks[|ks| - 1]]
  }

  lemma {:induction false} FoldSnoc(acc: seq<Entry>, ms: seq<Entry>, m: Entry)
    ensures Fold(acc, ms + [m]) == Insert(Fold(acc, ms), m.key, m.value)
    decreases |ms|
  {
    if ms == [] {
      assert (ms + [m])[1..] == [];
    } else {
      FoldSnoc(Insert(acc, ms[0].key, ms[0].value), ms[1..], m);
      assert (ms + [m])[1..] == ms[1..] + [m];
    }
  }

  /** One more member. */
  lemma Snoc(init: seq<Entry>, m: Entry, key: string)
    ensures LastValue(init + [m], key) == if m.key == key then Some(m.value) else LastValue(init, key)
    ensures FirstOccurrences(Keys(init + [m]))
         == if m.key in FirstOccurrences(Keys(init)) then FirstOccurrences(Keys(init)) else FirstOccurrences(Keys(init)) + [m.key]
  {
    hide Distinct;
    var ms := init + [m];
    assert ms[..|ms| - 1] == init;
    var ks := Keys(ms);
    assert ks[..|ks| - 1] == Keys(init) && ks[|ks| - 1] == m.key;
  }

  /**
   The duplicate-key rule: folding keeps each key where it first occurs and gives it its last value,
   and no key occurs twice.
   */
  lemma {:induction false} FoldIsFirstKeyLastValue(ms: seq<Entry>, key: string)
    ensures Keys(Fold([], ms)) == FirstOccurrences(Keys(ms))
    ensures Lookup(Fold([], ms), key) == LastValue(ms, key)
    ensures Distinct(Keys(Fold([], ms)))
    decreases |ms|
  {
    if ms != [] {
      var init, m := ms[..|ms| - 1], ms[|ms| - 1];
      assert ms == init + [m];
      hide Keys, Fold, FirstOccurrences, Lookup, LastValue, Distinct, Insert;
      FoldIsFirstKeyLastValue(init, key);
      FoldSnoc([], init, m);
      InsertSpec(Fold([], init), m.key, m.value, key);
      Snoc(init, m, key);
    }
  }

  /** Members whose keys are already distinct are kept as they are. */
  lemma {:induction false} FoldDistinct(ms: seq<Entry>)
    requires Distinct(Keys(ms))
    ensures Fold([], ms) == ms
    decreases |ms|
  {
    if ms != [] {
      var init, m := ms[..|ms| - 1], ms[|ms| - 1];
      assert ms == init + [m];
      FoldDistinct(init);
      FoldSnoc([], init, m);
      InsertFresh(init, m.key, m.value);
    }
  }

  lemma {:induction false} InsertFresh(es: seq<Entry>, key: string, value: Json)
    requires key !in Keys(es)
    ensures Insert(es, key, value) == es + [Entry(key, value)]
  {
    if es != [] {
      assert es[0].key == Keys(es)[0];
      InsertFresh(es[1..], key, value);
    }
  }

  // ---------------------------------------------------------------- shape of a value

  function Max(a: nat, b: nat): nat { if a >= b then a else b }

  /** How many containers enclose the deepest value inside `v`. */
  function Depth(v: Json): nat
    decreases v, 0
  {
    match v
    case Array(items) => DepthItems(items)
    case Object(entries) => DepthEntries(entries)
    case _ => 0
  }

  function DepthItems(items: seq<Json>): nat
    decreases items, 1
  {
    if items == [] then 0 else Max(1 + Depth(items[0]), DepthItems(items[1..]))
  }

  function DepthEntries(es: seq<Entry>): nat
    decreases es, 1
  {
    if es == [] then 0 else Max(1 + Depth(es[0].value), DepthEntries(es[1..]))
  }

  /** Every container inside `v`, and `v` itself, satisfies the printed-form conditions below. */
  predicate Canonical(v: Json)
    decreases v, 0
  {
    match v
    case I64(n) => n < 0
    case Array(items) => forall x :: x in items ==> Canonical(x)
    case Object(entries) =>
      && Distinct(Keys(entries))
      && forall e :: e in entries ==> Canonical(e.value)
    case _ => true
  }

  predicate FloatFree(v: Json)
    decreases v, 0
  {
    match v
    case F64(_) => false
    case Array(items) => forall x :: x in items ==> FloatFree(x)
    case Object(entries) => forall e :: e in entries ==> FloatFree(e.value)
    case _ => true
  }

  /**
   The value a printed `v` denotes: a non-negative `I64` is indistinguishable from a `U64` once
   printed, and repeated keys collapse.
   */
  function Normal(v: Json): Json
    decreases v, 0
  {
    match v
    case I64(n) => if n >= 0 then U64(n) else v
    case Array(items) => Array(NormalItems(items))
    case Object(entries) => Object(Fold([], NormalEntries(entries)))
    case _ => v
  }

  function NormalItems(items: seq<Json>): (r: seq<Json>)
    ensures |r| == |items|
    ensures forall j :: 0 <= j < |items| ==> r[j] == Normal(items[j])
    decreases items, 1
  {
    if items == [] then [] else [Normal(items[0])] + NormalItems(items[1..])
  }

  function NormalEntries(es: seq<Entry>): (r: seq<Entry>)
    ensures |r| == |es|
    ensures forall j :: 0 <= j < |es| ==> r[j] == Entry(es[j].key, Normal(es[j].value))
    decreases es, 1
  {
    if es == [] then [] else [Entry(es[0].key, Normal(es[0].value))] + NormalEntries(es[1..])
  }

  /** Exactly the canonical values are left unchanged by printing and reading back. */
  lemma {:induction false} NormalFixed(v: Json)
    ensures Normal(v) == v <==> Canonical(v)
    decreases v
  {
    match v
    case Array(items) =>
      forall x | x in items ensures Normal(x) == x <==> Canonical(x) {
        NormalFixed(x);
      }
      if Canonical(v) {
        assert NormalItems(items) == items;
      } else {
        var x :| x in items && !Canonical(x);
        var j :| 0 <= j < |items| && items[j] == x;
        assert NormalItems(items)[j] != items[j];
      }
    case Object(entries) =>
      forall e | e in entries ensures Normal(e.value) == e.value <==> Canonical(e.value) {
        NormalFixed(e.value);
      }
      NormalFixedEntries(entries);
    case _ =>
  }

  lemma NormalFixedEntries(es: seq<Entry>)
    requires forall e :: e in es ==> (Normal(e.value) == e.value <==> Canonical(e.value))
    ensures Fold([], NormalEntries(es)) == es <==>
            Distinct(Keys(es)) && forall e :: e in es ==> Canonical(e.value)
  {
    hide Fold, Normal, Canonical, Insert;
    var ns := NormalEntries(es);
    assert Keys(ns) == Keys(es);
    if Distinct(Keys(es)) {
      FoldDistinct(ns);
      if e :| e in es && !Canonical(e.value) {
        var j :| 0 <= j < |es| && es[j] == e;
        assert ns[j] != es[j];
      } else {
        assert ns == es;
      }
    } else {
      FoldIsFirstKeyLastValue(ns, "");
    }
  }
}
