/** How the generator slices vectors into harnesses and the validator finds each vector's expected output again. */
module HarnessBatches {
  import opened Common
  import opened CompactHarness

  // ---------------------------------------------------------------- slicing

  function BatchCount(n: nat, vph: nat): nat
    requires vph > 0
  {
    (n + vph - 1) / vph
  }

  lemma MulMono(a: int, b: int, k: nat)
    requires a <= b
    ensures a * k <= b * k
  {
  }

  /** The batches cover the vectors: all but the last are full, and the last is not empty. */
  lemma BatchBounds(n: nat, vph: nat, h: nat)
    requires vph > 0
    ensures BatchCount(n, vph) * vph >= n
    ensures h < BatchCount(n, vph) ==> h * vph < n
    ensures h + 1 < BatchCount(n, vph) ==> (h + 1) * vph < n
  {
    var c := BatchCount(n, vph);
    var r := (n + vph - 1) % vph;
    assert n + vph - 1 == c * vph + r;
    if h < c {
      MulMono(h, c - 1, vph);
      assert (c - 1) * vph == c * vph - vph;
    }
    if h + 1 < c {
      MulMono(h + 1, c - 1, vph);
      assert (c - 1) * vph == c * vph - vph;
    }
  }

  /** `vectors[h * vph : (h + 1) * vph]`. */
  function Batch<T>(vs: seq<T>, vph: nat, h: nat): (b: seq<T>)
    requires h * vph <= |vs|
  {
    vs[h * vph..Min((h + 1) * vph, |vs|)]
  }

  /** The generator's slicing loop: the batches, put together again, are the vectors. */
  method SliceBatches<T>(vs: seq<T>, vph: nat) returns (batches: seq<seq<T>>)
    requires vph > 0
    ensures |batches| == BatchCount(|vs|, vph)
    ensures forall h :: 0 <= h < |batches| ==> h * vph <= |vs| && batches[h] == Batch(vs, vph, h)
    ensures Joined(batches) == vs
  {
    hide BatchCount, Joined, Batch, Upto;
    batches := [];
    JoinedNothing<T>();
    UptoEnds(vs, vph);
    for h := 0 to BatchCount(|vs|, vph)
      invariant |batches| == h
      invariant forall k :: 0 <= k < h ==> k * vph <= |vs| && batches[k] == Batch(vs, vph, k)
      invariant Joined(batches) == Upto(vs, vph, h)
    {
      BatchBounds(|vs|, vph, h);
      BatchStep(vs, vph, h);
      var b := Batch(vs, vph, h);
      JoinedSnoc(batches, b);
      batches := batches + [b];
    }
  }

  /** The vectors before batch `h`. */
  function Upto<T>(vs: seq<T>, vph: nat, h: nat): seq<T> {
    vs[..Min(h * vph, |vs|)]
  }

  lemma UptoEnds<T>(vs: seq<T>, vph: nat)
    requires vph > 0
    ensures Upto(vs, vph, 0) == [] && Upto(vs, vph, BatchCount(|vs|, vph)) == vs
  {
    hide BatchCount;
    BatchBounds(|vs|, vph, 0);
  }

  lemma JoinedNothing<T>()
    ensures Joined<T>([]) == []
  {
  }

  lemma BatchStep<T>(vs: seq<T>, vph: nat, h: nat)
    requires h * vph < |vs|
    ensures Upto(vs, vph, h) + Batch(vs, vph, h) == Upto(vs, vph, h + 1)
  {
    NextProduct(h, vph);
  }

  lemma NextProduct(h: nat, k: nat)
    ensures (h + 1) * k == h * k + k
  {
  }

  function Joined<T>(bs: seq<seq<T>>): seq<T> {
    if bs == [] then [] else bs[0] + Joined(bs[1..])
  }

  lemma {:induction false} JoinedSnoc<T>(bs: seq<seq<T>>, b: seq<T>)
    ensures Joined(bs + [b]) == Joined(bs) + b
  {
    if bs == [] {
      assert [b][1..] == [];
    } else {
      JoinedSnoc(bs[1..], b);
      assert (bs + [b])[1..] == bs[1..] + [b];
    }
  }

  // ---------------------------------------------------------------- one harness

  function ActualAt(actual: seq<string>, vi: nat): string {
    if vi < |actual| then actual[vi] else ""
  }

  /** How many of the first `k` vectors of a harness match their expected outputs, counted from `base`. */
  function Matches(actual: seq<string>, expected: seq<string>, base: nat, k: nat): nat {
    if k == 0 then 0
    else
      Matches(actual, expected, base, k - 1)
      + (if base + k - 1 < |expected| && ActualAt(actual, k - 1) == expected[base + k - 1] then 1 else 0)
  }

  /** The comparison loop of `run_one_harness`. */
  method CompareBatch(actual: seq<string>, expected: seq<string>, base: nat, batchVph: nat) returns (pass: nat, total: nat)
    ensures pass == Matches(actual, expected, base, batchVph)
    ensures total == if base >= |expected| then 0 else Min(batchVph, |expected| - base)
  {
    pass, total := 0, 0;
    for vi := 0 to batchVph
      invariant total == vi && (vi > 0 ==> base + vi <= |expected|)
      invariant pass == Matches(actual, expected, base, vi)
    {
      var vecIdx := base + vi;
      if vecIdx >= |expected| {
        MatchesStop(actual, expected, base, vi, batchVph);
        return;
      }
      total := total + 1;
      var act := if vi < |actual| then actual[vi] else "";
      if act == expected[vecIdx] {
        pass := pass + 1;
      }
    }
  }

  lemma {:induction false} MatchesStop(actual: seq<string>, expected: seq<string>, base: nat, k: nat, m: nat)
    requires k <= m && base + k >= |expected|
    ensures Matches(actual, expected, base, m) == Matches(actual, expected, base, k)
    decreases m
  {
    if k < m {
      MatchesStop(actual, expected, base, k, m - 1);
    }
  }

  /** `"".join(parts)`. */
  function Concatenated(parts: seq<string>): string {
    if parts == [] then "" else parts[0] + Concatenated(parts[1..])
  }

  // ---------------------------------------------------------------- a module

  /** What a harness printed for a batch, in a form the decoder can read: decimal, or hexadecimal with a non-empty start. */
  ghost predicate Prints(raw: string, vs: seq<seq<byte>>) {
    Strip(raw) == PrintVectors(vs, false) || (Strip(raw) == PrintVectors(vs, true) && (vs == [] || vs[0] != []))
  }

  /** What became of a harness: whether it compiled and finished, and what it printed then. */
  datatype Execution = CompileFailed | CompileRaised | TimedOut | Finished(raw: string)

  /** The harnesses the generator wrote, with their delimiter counts, and what became of them. */
  ghost predicate Generated(runs: seq<Execution>, sizes: seq<nat>, outs: seq<seq<byte>>, vph: nat)
    requires vph > 0
  {
    && |runs| == |sizes| == BatchCount(|outs|, vph)
    && forall h :: 0 <= h < |runs| ==>
         && h * vph <= |outs| && sizes[h] == |Batch(outs, vph, h)|
         && (runs[h].Finished? ==> Prints(runs[h].raw, Batch(outs, vph, h)))
  }

  /** How many of the first `k` vectors produced their expected output. */
  function Passing(outs: seq<seq<byte>>, expected: seq<string>, k: nat): nat
    requires k <= |outs| == |expected|
  {
    if k == 0 then 0
    else Passing(outs, expected, k - 1) + (if HexString(outs[k - 1]) == expected[k - 1] then 1 else 0)
  }

  lemma {:induction false} HexStringsAt(vs: seq<seq<byte>>)
    ensures |HexStrings(vs)| == |vs|
    ensures forall k :: 0 <= k < |vs| ==> HexStrings(vs)[k] == HexString(vs[k])
    decreases |vs|
  {
    hide HexString;
    if vs != [] {
      HexStringsAt(vs[1..]);
    }
  }

  lemma PrintsDecodes(nd: Decimals, raw: string, vs: seq<seq<byte>>)
    requires Prints(raw, vs)
    ensures Decoded(nd, raw) == HexStrings(vs)
  {
    hide Decoded, Strip, PrintVectors, HexStrings;
    if Strip(raw) == PrintVectors(vs, false) {
      DecimalDecodes(nd, raw, vs);
    } else {
      HexDecodes(nd, raw, vs);
    }
  }

  /** The matches of a batch are the passing vectors of its range. */
  lemma {:induction false} BatchMatches(outs: seq<seq<byte>>, expected: seq<string>, base: nat, m: nat, k: nat)
    requires |outs| == |expected| && base + m <= |outs| && k <= m
    ensures Matches(HexStrings(outs[base..base + m]), expected, base, k)
         == Passing(outs, expected, base + k) - Passing(outs, expected, base)
    decreases k
  {
    hide HexStrings, HexString;
    if k > 0 {
      BatchMatches(outs, expected, base, m, k - 1);
      HexStringsAt(outs[base..base + m]);
      assert outs[base..base + m][k - 1] == outs[base + k - 1];
    }
  }

  /** There are as many batches as vectors only when every batch has one vector. */
  lemma OnePerBatch(n: nat, vph: nat, h: nat)
    requires vph > 0 && BatchCount(n, vph) == n && h < n
    ensures h * vph == h && Min((h + 1) * vph, n) == h + 1
  {
    var r := (n + vph - 1) % vph;
    assert n + vph - 1 == n * vph + r;
    if n > 1 {
      assert (n - 1) * (vph - 1) == n * vph - n - vph + 1 <= 0;
      assert vph == 1 by {
        if vph > 1 {
          MulMono(1, n - 1, vph - 1);
        }
      }
    }
  }

  /** Where batch `h` starts, and where the one before it ends. */
  function Bound(n: nat, vph: nat, h: nat): (r: nat)
    ensures r <= n
  {
    Min(h * vph, n)
  }

  /** The bounds go from nothing to everything, and inside they are where the validator looks. */
  lemma Bounds(n: nat, vph: nat, h: nat)
    requires vph > 0
    ensures Bound(n, vph, 0) == 0 && Bound(n, vph, BatchCount(n, vph)) == n
    ensures Bound(n, vph, h) <= Bound(n, vph, h + 1)
    ensures h < BatchCount(n, vph) ==> Bound(n, vph, h) == h * vph < Bound(n, vph, h + 1)
    ensures h + 1 < BatchCount(n, vph) ==> Bound(n, vph, h + 1) - Bound(n, vph, h) == vph
  {
    hide BatchCount;
    BatchBounds(n, vph, h);
    BatchBounds(n, vph, 0);
    NextProduct(h, vph);
  }

  /** What the generator wrote for batch `h`, by its bounds. */
  lemma GeneratedAt(runs: seq<Execution>, sizes: seq<nat>, outs: seq<seq<byte>>, vph: nat, h: nat)
    requires vph > 0 && Generated(runs, sizes, outs, vph) && h < |runs|
    ensures var lo, hi := Bound(|outs|, vph, h), Bound(|outs|, vph, h + 1);
            && lo == h * vph && lo < hi && sizes[h] == hi - lo
            && (runs[h].Finished? ==> Prints(runs[h].raw, outs[lo..hi]))
    ensures h > 0 ==> sizes[0] == vph
  {
    hide Prints, BatchCount;
    Bounds(|outs|, vph, h);
    if h > 0 {
      BatchBounds(|outs|, vph, h);
      BatchBounds(|outs|, vph, 0);
      MulMono(1, h, vph);
    }
  }

  // ---------------------------------------------------------------- results

  datatype Flag = Pass | Partial | CErr | Exc | TOut

  /** What the validator records of a harness. */
  datatype Entry = Entry(pass: nat, total: nat, flag: Flag)

  /** The entry a harness earns for the vectors from `lo` to `hi`: each counted once, against its own expected output. */
  ghost predicate Earned(e: Entry, x: Execution, outs: seq<seq<byte>>, expected: seq<string>, lo: nat, hi: nat)
    requires lo <= hi <= |outs| == |expected|
  {
    && e.total == hi - lo
    && match x
       case CompileFailed => e.pass == 0 && e.flag == CErr
       case CompileRaised => e.pass == 0 && e.flag == Exc
       case TimedOut => e.pass == 0 && e.flag == TOut
       case Finished(_) =>
         && e.pass == Passing(outs, expected, hi) - Passing(outs, expected, lo)
         && e.flag == if e.pass == e.total then Pass else Partial
  }

  /** The entry batch `h` earns. */
  ghost predicate EarnedBy(e: Entry, x: Execution, outs: seq<seq<byte>>, expected: seq<string>, vph: nat, h: nat)
    requires |outs| == |expected|
  {
    var lo, hi := Bound(|outs|, vph, h), Bound(|outs|, vph, h + 1);
    lo <= hi && Earned(e, x, outs, expected, lo, hi)
  }

  function TotalPass(detail: map<nat, Entry>, n: nat): nat
    requires forall h :: 0 <= h < n ==> h in detail
  {
    if n == 0 then 0 else TotalPass(detail, n - 1) + detail[n - 1].pass
  }

  function TotalVectors(detail: map<nat, Entry>, n: nat): nat
    requires forall h :: 0 <= h < n ==> h in detail
  {
    if n == 0 then 0 else TotalVectors(detail, n - 1) + detail[n - 1].total
  }

  /** The first flag that is not a pass. */
  function Status(detail: map<nat, Entry>, n: nat): Flag
    requires forall h :: 0 <= h < n ==> h in detail
  {
    if n == 0 then Pass
    else if Status(detail, n - 1) != Pass then Status(detail, n - 1)
    else detail[n - 1].flag
  }

  /** It is a pass exactly when every flag is, and otherwise the flag of the first harness that did not pass. */
  lemma {:induction false} FirstFailure(detail: map<nat, Entry>, n: nat, k: nat)
    requires (forall h :: 0 <= h < n ==> h in detail) && k <= n
    requires (forall h :: 0 <= h < k ==> detail[h].flag == Pass) && (k < n ==> detail[k].flag != Pass)
    ensures Status(detail, n) == if k < n then detail[k].flag else Pass
    decreases n
  {
    if n > 0 {
      FirstFailure(detail, n - 1, if k < n then k else n - 1);
    }
  }

  /** Only the entries counted matter. */
  lemma {:induction false} SameTotals(d: map<nat, Entry>, e: map<nat, Entry>, n: nat)
    requires forall h :: 0 <= h < n ==> h in d && h in e && d[h] == e[h]
    ensures TotalPass(d, n) == TotalPass(e, n) && TotalVectors(d, n) == TotalVectors(e, n) && Status(d, n) == Status(e, n)
  {
    if n > 0 {
      SameTotals(d, e, n - 1);
    }
  }

  lemma NoTotals(d: map<nat, Entry>)
    ensures TotalPass(d, 0) == TotalVectors(d, 0) == 0 && Status(d, 0) == Pass
  {
  }

  /** One more harness on record. */
  lemma NextTotals(d: map<nat, Entry>, e: map<nat, Entry>, n: nat)
    requires (forall h :: 0 <= h < n ==> h in d && h in e && d[h] == e[h]) && n in e
    ensures TotalPass(e, n + 1) == TotalPass(d, n) + e[n].pass && TotalVectors(e, n + 1) == TotalVectors(d, n) + e[n].total
    ensures Status(e, n + 1) == if Status(d, n) == Pass then e[n].flag else Status(d, n)
  {
    SameTotals(d, e, n);
  }

  /** The file of finished harnesses, for one module and backend. */
  class Validator {
    var detail: map<nat, Entry>

    constructor ()
      ensures detail == map[]
    {
      detail := map[];
    }

    /** A harness on record is not run again; any other is judged and put on record. */
    method RunHarness(nd: Decimals, x: Execution, expected: seq<string>, h: nat, vph: nat, onePerBatch: bool, batchVph: nat,
                      ghost outs: seq<seq<byte>>, ghost base: nat)
      returns (e: Entry)
      requires |outs| == |expected| && base + batchVph <= |outs| && batchVph >= 1
      requires x.Finished? ==> Prints(x.raw, outs[base..base + batchVph])
      requires if onePerBatch then base == h && batchVph == 1 else base == h * vph
      modifies this
      ensures detail == old(detail)[h := e]
      ensures h in old(detail) ==> e == old(detail)[h]
      ensures h !in old(detail) ==> Earned(e, x, outs, expected, base, base + batchVph)
    {
      hide Decoded, Prints, HexString, HexStrings;
      if h in detail {
        return detail[h];
      }
      match x {
      case CompileFailed => e := Entry(0, if onePerBatch then 1 else batchVph, CErr);
      case CompileRaised => e := Entry(0, if onePerBatch then 1 else batchVph, Exc);
      case TimedOut => e := Entry(0, if onePerBatch then 1 else batchVph, TOut);
      case Finished(raw) =>
        var actual := ParseOutput(nd, raw);
        ghost var batch := outs[base..base + batchVph];
        PrintsDecodes(nd, raw, batch);
        BatchMatches(outs, expected, base, batchVph, batchVph);
        var pass, total;
        if onePerBatch {
          HexStringsAt(batch);
          assert batch[0] == outs[h];
          total := 1;
          var all := Concatenated(actual);
          SingleConcatenated(actual);
          var exp := if h < |expected| then expected[h] else "";
          pass := if all == exp then 1 else 0;
        } else {
          pass, total := CompareBatch(actual, expected, h * vph, batchVph);
        }
        e := Entry(pass, total, if pass == total then Pass else Partial);
      }
      detail := detail[h := e];
    }

    /**
     A whole module. What is on record is kept, the rest is judged, and the report is the sum of the record; so a run that was
     interrupted and is started again reports what it would have reported.
     */
    method RunModule(nd: Decimals, runs: seq<Execution>, sizes: seq<nat>, expected: seq<string>,
                     ghost outs: seq<seq<byte>>, ghost slice: nat)
      returns (pass: nat, total: nat, status: Flag)
      requires slice > 0 && |outs| == |expected| > 0 && Generated(runs, sizes, outs, slice)
      modifies this
      ensures forall h :: 0 <= h < |runs| ==> h in detail
      ensures forall h :: 0 <= h < |runs| && h in old(detail) ==> detail[h] == old(detail)[h]
      ensures forall h :: 0 <= h < |runs| && h !in old(detail) ==> EarnedBy(detail[h], runs[h], outs, expected, slice, h)
      ensures pass == TotalPass(detail, |runs|) && total == TotalVectors(detail, |runs|) && status == Status(detail, |runs|)
    {
      hide Prints, Passing, Bound, Earned, Generated, BatchCount;
      var vph, onePerBatch := ModuleShape(runs, sizes, expected, outs, slice);
      pass, total, status := 0, 0, Pass;
      NoTotals(detail);
      hide TotalPass, TotalVectors, Status;
      for h := 0 to |runs|
        invariant forall k :: 0 <= k < h ==> k in detail
        invariant forall k :: k in old(detail) ==> k in detail && detail[k] == old(detail)[k]
        invariant forall k :: k in detail ==> k in old(detail) || 0 <= k < h
        invariant forall k :: 0 <= k < h && k !in old(detail) ==> EarnedBy(detail[k], runs[k], outs, expected, slice, k)
        invariant pass == TotalPass(detail, h) && total == TotalVectors(detail, h) && status == Status(detail, h)
      {
        GeneratedAt(runs, sizes, outs, slice, h);
        ghost var lo := Bound(|outs|, slice, h);
        if onePerBatch {
          OneEach(runs, sizes, outs, slice, h);
        }
        SameBase(h, slice, vph);
        ghost var before := detail;
        var e := RunHarness(nd, runs[h], expected, h, vph, onePerBatch, sizes[h], outs, lo);
        NextTotals(before, detail, h);
        pass, total := pass + e.pass, total + e.total;
        if status == Pass {
          status := e.flag;
        }
      }
    }

    /** How `run_module` reads the batching off the first harness and the counts. */
    method ModuleShape(runs: seq<Execution>, sizes: seq<nat>, expected: seq<string>, ghost outs: seq<seq<byte>>, ghost slice: nat)
      returns (vph: nat, onePerBatch: bool)
      requires slice > 0 && |outs| == |expected| > 0 && Generated(runs, sizes, outs, slice)
      ensures |runs| == |sizes| && (onePerBatch <==> |runs| == |expected|)
      ensures |runs| > 1 ==> vph == slice
    {
      hide Prints;
      BatchBounds(|outs|, slice, 0);
      vph := sizes[0];
      if vph == 0 {
        vph := 5;
      }
      onePerBatch := |runs| == |expected|;
      if |runs| > 1 {
        GeneratedAt(runs, sizes, outs, slice, 1);
      }
    }
  }

  lemma OneEach(runs: seq<Execution>, sizes: seq<nat>, outs: seq<seq<byte>>, vph: nat, h: nat)
    requires vph > 0 && Generated(runs, sizes, outs, vph) && h < |runs| == |outs|
    ensures Bound(|outs|, vph, h) == h && sizes[h] == 1
  {
    hide Prints;
    OnePerBatch(|outs|, vph, h);
    GeneratedAt(runs, sizes, outs, vph, h);
  }

  /** Whatever became of the harnesses, a complete record counts every vector exactly once. */
  lemma {:induction false} EveryVectorCounted(detail: map<nat, Entry>, runs: seq<Execution>, expected: seq<string>,
                                              outs: seq<seq<byte>>, slice: nat, n: nat)
    requires slice > 0 && |outs| == |expected| && n <= |runs| == BatchCount(|outs|, slice)
    requires forall h :: 0 <= h < n ==> h in detail && EarnedBy(detail[h], runs[h], outs, expected, slice, h)
    ensures TotalVectors(detail, n) == Bound(|outs|, slice, n)
    ensures n == |runs| ==> TotalVectors(detail, n) == |expected|
  {
    hide Passing, Bound, BatchCount;
    Bounds(|outs|, slice, n);
    if n > 0 {
      EveryVectorCounted(detail, runs, expected, outs, slice, n - 1);
      assert EarnedBy(detail[n - 1], runs[n - 1], outs, expected, slice, n - 1);
    }
  }

  /** When every harness finished, those that pass are exactly the vectors whose output is the expected one. */
  lemma {:induction false} FinishedCounts(detail: map<nat, Entry>, runs: seq<Execution>, expected: seq<string>,
                                          outs: seq<seq<byte>>, slice: nat, n: nat)
    requires slice > 0 && |outs| == |expected| && n <= |runs| == BatchCount(|outs|, slice)
    requires forall h :: 0 <= h < n ==>
               runs[h].Finished? && h in detail && EarnedBy(detail[h], runs[h], outs, expected, slice, h)
    ensures TotalPass(detail, n) == Passing(outs, expected, Bound(|outs|, slice, n))
    ensures Status(detail, n) == if TotalPass(detail, n) == Bound(|outs|, slice, n) then Pass else Partial
    ensures n == |runs| ==> TotalPass(detail, n) == Passing(outs, expected, |expected|)
  {
    hide Passing, Bound, BatchCount;
    Bounds(|outs|, slice, n);
    PassingNone(outs, expected);
    if n > 0 {
      FinishedCounts(detail, runs, expected, outs, slice, n - 1);
      assert EarnedBy(detail[n - 1], runs[n - 1], outs, expected, slice, n - 1);
      var lo, hi := Bound(|outs|, slice, n - 1), Bound(|outs|, slice, n);
      PassingAtMost(outs, expected, lo);
      PassingBetween(outs, expected, lo, hi);
    }
  }

  lemma {:induction false} PassingBetween(outs: seq<seq<byte>>, expected: seq<string>, lo: nat, hi: nat)
    requires lo <= hi <= |outs| == |expected|
    ensures Passing(outs, expected, lo) <= Passing(outs, expected, hi) <= Passing(outs, expected, lo) + (hi - lo)
    decreases hi
  {
    if lo < hi {
      PassingBetween(outs, expected, lo, hi - 1);
    }
  }

  lemma {:induction false} PassingAtMost(outs: seq<seq<byte>>, expected: seq<string>, k: nat)
    requires k <= |outs| == |expected|
    ensures Passing(outs, expected, k) <= k
  {
    if k > 0 {
      PassingAtMost(outs, expected, k - 1);
    }
  }

  lemma SingleConcatenated(parts: seq<string>)
    requires |parts| == 1
    ensures Concatenated(parts) == parts[0]
  {
    assert parts[1..] == [];
    assert parts[0] + "" == parts[0];
  }

  lemma SameBase(h: nat, slice: nat, vph: nat)
    requires h > 0 ==> vph == slice
    ensures h * slice == h * vph
  {
  }

  lemma PassingNone(outs: seq<seq<byte>>, expected: seq<string>)
    requires |outs| == |expected|
    ensures Passing(outs, expected, 0) == 0
  {
  }
}
