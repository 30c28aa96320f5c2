/**
 The crash-resumable test sweep: the supervisor's rounds, the batches they launch, and the single-backend resume loop, all
 appending to one result file per backend.
 */
module Sweep {
  import opened Common

  /** A line of a result file. A torn line is one that a dying process did not finish, and whatever was appended to it since. */
  datatype Line = Header | Row(file: string, verdict: string) | Torn

  /** The lines of a file, and whether the last one still lacks its line feed. */
  datatype Contents = Contents(lines: seq<Line>, open: bool)

  type File = Option<Contents>

  const EMPTY := Contents([], false)

  /** A Python index clamped into a sequence of the given length. */
  function Clamp(i: int, n: nat): (r: nat)
    ensures 0 <= i <= n ==> r == i
    ensures i > n ==> r == n
    ensures 0 <= i + n < n ==> r == i + n
    ensures i + n < 0 ==> r == 0
  {
    if i >= n then n else if i >= 0 then i else if i + n >= 0 then i + n else 0
  }

  /** `s[a:b]` in Python. */
  function Slice<T>(s: seq<T>, a: int, b: int): seq<T> {
    var lo, hi := Clamp(a, |s|), Clamp(b, |s|);
    if lo <= hi then s[lo..hi] else []
  }

  /** `count_done`: the lines of the file but one; an unfinished line counts. */
  function Done(t: File): int {
    match t
    case None => 0
    case Some(c) => |c.lines| - 1
  }

  function Rows(sources: seq<string>, run: string -> string): (rows: seq<Line>)
    ensures |rows| == |sources|
    ensures forall i :: 0 <= i < |rows| ==> rows[i] == Row(sources[i], run(sources[i]))
  {
    seq(|sources|, i requires 0 <= i < |sources| => Row(sources[i], run(sources[i])))
  }

  // ---------------------------------------------------------------- appending

  /** How much a process still writes before it dies: whole lines, and then perhaps part of one. */
  datatype Life = Life(whole: nat, partial: bool)

  /** The lines when text is appended: it continues an unfinished last line. */
  function Joined(c: Contents, line: Line): seq<Line> {
    if c.open && c.lines != [] then c.lines[..|c.lines| - 1] + [Torn] else c.lines + [line]
  }

  /** One line written, as far as the process gets. */
  function Append(c: Contents, line: Line, life: Life): Contents {
    if life.whole > 0 then Contents(Joined(c, line), false)
    else if life.partial then Contents(Joined(c, Torn), true)
    else c
  }

  function Spent(life: Life): Life {
    if life.whole > 0 then Life(life.whole - 1, life.partial) else Life(0, false)
  }

  function WriteAll(c: Contents, lines: seq<Line>, life: Life): Contents
    decreases |lines|
  {
    if lines == [] then c else WriteAll(Append(c, lines[0], life), lines[1..], Spent(life))
  }

  /** What a process that opened the file leaves on disk. The header is written only to a file that did not exist. */
  function Written(t: File, rows: seq<Line>, life: Life): File {
    match t
    case None => Some(WriteAll(EMPTY, [Header] + rows, life))
    case Some(c) => Some(WriteAll(c, rows, life))
  }

  function AfterBatch(t: File, sources: seq<string>, start: int, count: int, run: string -> string, life: Life): File {
    Written(t, Rows(Slice(sources, start, Min(start + count, |sources|)), run), life)
  }

  /** One round of the supervisor, for one backend. */
  function AfterRound(t: File, sources: seq<string>, chunk: int, run: string -> string, life: Life): File {
    var done := Done(t);
    if done >= |sources| then t
    else AfterBatch(t, sources, done, Min(chunk, |sources| - done), run, life)
  }

  /** One run of the resume loop. */
  function AfterResume(t: File, sources: seq<string>, run: string -> string, life: Life): File {
    var done := Done(t);
    if done >= |sources| then t
    else Written(t, Rows(sources[if done < 0 then 0 else done..], run), life)
  }

  // ---------------------------------------------------------------- the programs

  /** The results directory: an absent key is a file that does not exist. */
  class Results {
    var tsv: map<string, Contents>

    constructor ()
      ensures tsv == map[]
    {
      tsv := map[];
    }

    function FileOf(backend: string): File
      reads this
    {
      if backend in tsv then Some(tsv[backend]) else None
    }

    method CountDone(backend: string) returns (done: int)
      ensures done == Done(FileOf(backend))
    {
      if backend !in tsv {
        return 0;
      }
      done := 0;
      for i := 0 to |tsv[backend].lines|
        invariant done == i
      {
        done := done + 1;
      }
      done := done - 1;
    }

    /** Writes one line, as far as the process gets. */
    method WriteLine(backend: string, line: Line, life: Life) returns (left: Life)
      requires backend in tsv
      modifies this
      ensures tsv == old(tsv)[backend := Append(old(tsv)[backend], line, life)] && left == Spent(life)
    {
      tsv := tsv[backend := Append(tsv[backend], line, life)];
      left := Spent(life);
    }

    /** Opens the file for appending and gives a new one its header. */
    method Open(backend: string, life: Life, ghost rows: seq<Line>) returns (left: Life)
      modifies this
      ensures backend in tsv && tsv == old(tsv)[backend := tsv[backend]]
      ensures Some(WriteAll(tsv[backend], rows, left)) == Written(old(FileOf(backend)), rows, life)
    {
      left := life;
      var isNew := backend !in tsv;
      if isNew {
        tsv := tsv[backend := EMPTY];
        left := WriteLine(backend, Header, left);
        assert ([Header] + rows)[1..] == rows;
      }
    }

    method RunOneBatch(backend: string, sources: seq<string>, start: int, count: int, run: string -> string, life: Life)
      modifies this
      ensures FileOf(backend) == AfterBatch(old(FileOf(backend)), sources, start, count, run, life)
      ensures tsv.Keys == old(tsv.Keys) + {backend} && forall b :: b in old(tsv) && b != backend ==> tsv[b] == old(tsv[b])
    {
      hide Written, Slice, Append, Spent, WriteAll, Rows;
      var total := |sources|;
      var end := Min(start + count, total);
      var batch := Slice(sources, start, end);
      ghost var before := FileOf(backend);
      ghost var rows := Rows(batch, run);
      var left := Open(backend, life, rows);
      assert rows[0..] == rows;
      for i := 0 to |batch|
        invariant tsv.Keys == old(tsv.Keys) + {backend}
        invariant forall b :: b in old(tsv) && b != backend ==> tsv[b] == old(tsv[b])
        invariant backend in tsv && Some(WriteAll(tsv[backend], rows[i..], left)) == Written(before, rows, life)
      {
        OneWritten(tsv[backend], rows, i, left);
        left := WriteLine(backend, Row(batch[i], run(batch[i])), left);
      }
      AllWritten(tsv[backend], rows, left);
    }

    method Resume(backend: string, sources: seq<string>, run: string -> string, life: Life)
      modifies this
      ensures FileOf(backend) == AfterResume(old(FileOf(backend)), sources, run, life)
      ensures tsv.Keys <= old(tsv.Keys) + {backend}
      ensures forall b :: b in old(tsv) && b != backend ==> b in tsv && tsv[b] == old(tsv[b])
    {
      hide Written, Append, Spent, WriteAll, Rows;
      var total := |sources|;
      var done := CountDone(backend);
      if done >= total {
        return;
      }
      ghost var before := FileOf(backend);
      ghost var first := if done < 0 then 0 else done;
      ghost var rows := Rows(sources[first..], run);
      var left := Open(backend, life, rows);
      assert rows[0..] == rows;
      for i := 0 to total
        invariant tsv.Keys == old(tsv.Keys) + {backend}
        invariant forall b :: b in old(tsv) && b != backend ==> tsv[b] == old(tsv[b])
        invariant backend in tsv
        invariant Some(WriteAll(tsv[backend], rows[if i < first then 0 else i - first..], left)) == Written(before, rows, life)
      {
        if i < done {
          continue;
        }
        OneWritten(tsv[backend], rows, i - first, left);
        left := WriteLine(backend, Row(sources[i], run(sources[i])), left);
      }
      AllWritten(tsv[backend], rows, left);
    }

    /**
     One round: a batch for each of the chosen backends that is not finished. The batches run side by side in the
     original; each touches only its own backend's file, so their order does not matter.
     */
    method Round(backends: seq<string>, parallel: int, sources: seq<string>, chunk: int, run: string -> string,
                 life: string -> Life)
      requires forall i, j :: 0 <= i < j < |backends| ==> backends[i] != backends[j]
      modifies this
      ensures forall b :: b in Slice(backends, 0, parallel) ==>
                FileOf(b) == AfterRound(old(FileOf(b)), sources, chunk, run, life(b))
      ensures forall b :: b !in Slice(backends, 0, parallel) ==> FileOf(b) == old(FileOf(b))
    {
      hide AfterBatch, Done, Slice, Clamp;
      var chosen := Slice(backends, 0, parallel);
      SliceDistinct(backends, 0, parallel);
      var total := |sources|;
      for k := 0 to |chosen|
        invariant forall i :: 0 <= i < k ==>
                    FileOf(chosen[i]) == AfterRound(old(FileOf(chosen[i])), sources, chunk, run, life(chosen[i]))
        invariant forall b :: b !in chosen[..k] ==> FileOf(b) == old(FileOf(b))
      {
        var b := chosen[k];
        var done := CountDone(b);
        if done >= total {
          continue;
        }
        var count := Min(chunk, total - done);
        RunOneBatch(b, sources, done, count, run, life(b));
      }
    }
  }

  /** The loops write the next line and go on with the rest. */
  lemma OneWritten(c: Contents, rows: seq<Line>, i: nat, life: Life)
    requires i < |rows|
    ensures WriteAll(c, rows[i..], life) == WriteAll(Append(c, rows[i], life), rows[i + 1..], Spent(life))
  {
    assert rows[i..][0] == rows[i] && rows[i..][1..] == rows[i + 1..];
  }

  lemma AllWritten(c: Contents, rows: seq<Line>, life: Life)
    ensures WriteAll(c, rows[|rows|..], life) == c
  {
  }

  lemma SliceDistinct(s: seq<string>, a: int, b: int)
    requires forall i, j :: 0 <= i < j < |s| ==> s[i] != s[j]
    ensures var t := Slice(s, a, b); forall i, j :: 0 <= i < j < |t| ==> t[i] != t[j]
  {
  }

  // ---------------------------------------------------------------- what appending leaves

  /** How many of the lines get to the disk whole. */
  function Kept(lines: seq<Line>, life: Life): (m: nat)
    ensures m <= |lines|
  {
    Min(life.whole, |lines|)
  }

  /** A file that ends in a line feed grows by whole lines, and then by a torn one if the process died inside it. */
  lemma {:induction false} WriteAllClosed(c: Contents, lines: seq<Line>, life: Life)
    requires !c.open
    ensures var m := Kept(lines, life);
            WriteAll(c, lines, life) ==
            if m < |lines| && life.partial then Contents(c.lines + lines[..m] + [Torn], true)
            else Contents(c.lines + lines[..m], false)
    decreases |lines|
  {
    if lines == [] {
      assert c.lines + [] == c.lines;
    } else {
      var d := Append(c, lines[0], life);
      if life.whole > 0 {
        WriteAllClosed(d, lines[1..], Spent(life));
        var m := Kept(lines, life);
        assert c.lines + [lines[0]] + lines[1..][..m - 1] == c.lines + lines[..m];
      } else {
        assert c.lines + [] == c.lines;
        DeadWritesNothing(d, lines[1..]);
      }
    }
  }

  lemma {:induction false} DeadWritesNothing(c: Contents, lines: seq<Line>)
    ensures WriteAll(c, lines, Life(0, false)) == c
    decreases |lines|
  {
    if lines != [] {
      DeadWritesNothing(c, lines[1..]);
    }
  }

  /** A file that cannot be put right by appending: its first line is not the header, or a line is torn. */
  predicate Spoiled(c: Contents) {
    || (c.lines != [] && c.lines[0] != Header)
    || (c.open && c.lines != [])
    || Torn in c.lines
  }

  lemma AppendSpoiled(c: Contents, line: Line, life: Life)
    requires Spoiled(c)
    ensures Spoiled(Append(c, line, life))
  {
    var d := Append(c, line, life);
    if Torn in c.lines {
      var i :| 0 <= i < |c.lines| && c.lines[i] == Torn;
      assert d.lines[i] == Torn;
    }
    if c.open && c.lines != [] && d != c {
      assert d.lines[|d.lines| - 1] == Torn;
    }
  }

  lemma {:induction false} WriteAllSpoiled(c: Contents, lines: seq<Line>, life: Life)
    requires Spoiled(c)
    ensures Spoiled(WriteAll(c, lines, life))
    decreases |lines|
  {
    hide Spoiled, Append;
    if lines != [] {
      AppendSpoiled(c, lines[0], life);
      WriteAllSpoiled(Append(c, lines[0], life), lines[1..], Spent(life));
    }
  }

  // ---------------------------------------------------------------- runs

  datatype Event =
    | Round(chunk: int, run: string -> string, life: Life)
    | Resume(run: string -> string, life: Life)

  function After(t: File, sources: seq<string>, e: Event): File {
    match e
    case Round(chunk, run, life) => AfterRound(t, sources, chunk, run, life)
    case Resume(run, life) => AfterResume(t, sources, run, life)
  }

  function Sweep(sources: seq<string>, events: seq<Event>): File
    decreases |events|
  {
    if events == [] then None else After(Sweep(sources, events[..|events| - 1]), sources, events[|events| - 1])
  }

  /** No file yet, or the header and then one row for each source of a prefix of the sorted list, in order. */
  ghost predicate Good(sources: seq<string>, t: File) {
    t.Some? ==>
      var lines := t.value.lines;
      && !t.value.open && 1 <= |lines| <= |sources| + 1 && lines[0] == Header
      && forall i :: 0 < i < |lines| ==> lines[i].Row? && lines[i].file == sources[i - 1]
  }

  /** A file that exists without a header, or is spoiled. */
  predicate Lost(t: File) {
    t.Some? && (t.value == EMPTY || Spoiled(t.value))
  }

  /** The file ends inside a line. */
  predicate Unfinished(t: File) {
    t.Some? && t.value.open
  }

  function Remaining(sources: seq<string>, t: File): int {
    |sources| - Done(t)
  }

  /** The end of the sources one event takes on, starting where the file ends. */
  function Share(sources: seq<string>, t: File, e: Event): (hi: int) {
    match e
    case Round(chunk, _, _) => Clamp(Done(t) + Min(chunk, |sources| - Done(t)), |sources|)
    case Resume(_, _) => |sources|
  }

  function Part(sources: seq<string>, lo: nat, hi: int): (part: seq<string>)
    requires hi <= |sources|
    ensures |part| == if lo <= hi then hi - lo else 0
    ensures forall j :: 0 <= j < |part| ==> part[j] == sources[lo + j]
  {
    if lo <= hi then sources[lo..hi] else []
  }

  lemma EventShape(sources: seq<string>, t: File, e: Event)
    requires Good(sources, t) && Done(t) < |sources|
    ensures var lo, hi := Done(t), Share(sources, t, e);
            && hi <= |sources|
            && After(t, sources, e) == Written(t, Rows(Part(sources, lo, hi), e.run), e.life)
  {
    hide Written, Rows;
    var lo, hi := Done(t), Share(sources, t, e);
    assert sources[lo..] == sources[lo..|sources|];
    if e.Round? {
      assert Slice(sources, lo, lo + Min(e.chunk, |sources| - lo)) == Part(sources, lo, hi);
    }
  }

  lemma EventAfterEnd(sources: seq<string>, t: File, e: Event)
    requires Done(t) >= |sources|
    ensures After(t, sources, e) == t
  {
  }

  /** Rows of consecutive sources, appended to a good file that may be about to get its header. */
  lemma GoodGrows(sources: seq<string>, before: seq<Line>, lo: nat, part: seq<string>, run: string -> string, m: nat)
    requires 1 <= |before| == lo + 1 && before[0] == Header && lo + |part| <= |sources| && m <= |part|
    requires forall i :: 0 < i < |before| ==> before[i].Row? && before[i].file == sources[i - 1]
    requires forall j :: 0 <= j < |part| ==> part[j] == sources[lo + j]
    ensures Good(sources, Some(Contents(before + Rows(part, run)[..m], false)))
  {
    var rows := Rows(part, run);
    var lines := before + rows[..m];
    forall i | 0 < i < |lines| ensures lines[i].Row? && lines[i].file == sources[i - 1] {
      if i > lo {
        assert lines[i] == rows[i - lo - 1];
      }
    }
  }

  /** What a file that exists becomes: it stays good, or ends inside a line. */
  lemma GrownGood(sources: seq<string>, c: Contents, hi: int, run: string -> string, life: Life)
    requires Good(sources, Some(c)) && |c.lines| - 1 <= |sources| && hi <= |sources|
    ensures var d := WriteAll(c, Rows(Part(sources, |c.lines| - 1, hi), run), life);
            if d.open then Spoiled(d) else Good(sources, Some(d))
  {
    hide Spoiled, Rows, Part, WriteAll;
    var part := Part(sources, |c.lines| - 1, hi);
    var rows := Rows(part, run);
    WriteAllClosed(c, rows, life);
    TornIsSpoiled(c.lines + rows[..Kept(rows, life)]);
    GoodGrows(sources, c.lines, |c.lines| - 1, part, run, Kept(rows, life));
  }

  /** What a new file becomes: good once the header is written, unless it ends inside a line. */
  lemma NewGood(sources: seq<string>, part: seq<string>, run: string -> string, life: Life)
    requires part <= sources
    ensures var d := WriteAll(EMPTY, [Header] + Rows(part, run), life);
            if d.open then Spoiled(d) else if life.whole > 0 then Good(sources, Some(d)) else d == EMPTY
  {
    hide Spoiled, Rows, WriteAll;
    var rows := Rows(part, run);
    var lines := [Header] + rows;
    WriteAllClosed(EMPTY, lines, life);
    var m := Kept(lines, life);
    NothingAndMore(lines[..m]);
    TornIsSpoiled(lines[..m]);
    if m > 0 {
      assert lines[..m] == [Header] + rows[..m - 1];
      GoodGrows(sources, [Header], 0, part, run, m - 1);
    }
  }

  /** What a good file becomes: it stays good, or ends inside a line, or never got its header. */
  lemma WrittenGood(sources: seq<string>, t: File, hi: int, run: string -> string, life: Life)
    requires Good(sources, t) && Done(t) <= |sources| && hi <= |sources|
    ensures var u := Written(t, Rows(Part(sources, Done(t), hi), run), life);
            && u.Some?
            && (u.value.open ==> Lost(u))
            && (!u.value.open && (t.Some? || life.whole > 0) ==> Good(sources, u))
            && (!u.value.open && t.None? && life.whole == 0 ==> u == Some(EMPTY))
  {
    hide Spoiled, Rows, WriteAll;
    if t.Some? {
      GrownGood(sources, t.value, hi, run, life);
    } else {
      assert Part(sources, 0, hi) == sources[..|Part(sources, 0, hi)|];
      NewGood(sources, Part(sources, 0, hi), run, life);
    }
  }

  lemma TornIsSpoiled(lines: seq<Line>)
    ensures Spoiled(Contents(lines + [Torn], true))
  {
  }

  /** One event keeps a good file good, unless it ends inside a line or dies before a new file's header. */
  lemma EventKeepsGood(sources: seq<string>, t: File, e: Event)
    requires Good(sources, t)
    ensures var u := After(t, sources, e);
            && (Good(sources, u) <==> !Unfinished(u) && (t.Some? || sources == [] || e.life.whole > 0))
            && (!Good(sources, u) ==> Lost(u))
  {
    hide AfterRound, AfterResume, Rows, Share, Written, Spoiled, Part;
    if Done(t) < |sources| {
      EventShape(sources, t, e);
      WrittenGood(sources, t, Share(sources, t, e), e.run, e.life);
    } else {
      EventAfterEnd(sources, t, e);
    }
  }

  /** A lost file stays lost. */
  lemma EventKeepsLost(sources: seq<string>, t: File, e: Event)
    requires Lost(t)
    ensures Lost(After(t, sources, e))
  {
    hide Spoiled, Rows, WriteAll, Slice;
    if Done(t) < |sources| {
      var rows := if e.Round? then Rows(Slice(sources, Done(t), Min(Done(t) + Min(e.chunk, |sources| - Done(t)), |sources|)), e.run)
                  else Rows(sources[if Done(t) < 0 then 0 else Done(t)..], e.run);
      if Spoiled(t.value) {
        WriteAllSpoiled(t.value, rows, e.life);
      } else {
        RowsToEmpty(rows, e.life);
      }
    }
  }

  /** Rows written to an empty file leave it without a header. */
  lemma RowsToEmpty(rows: seq<Line>, life: Life)
    requires forall i :: 0 <= i < |rows| ==> rows[i].Row?
    ensures var c := WriteAll(EMPTY, rows, life); c == EMPTY || Spoiled(c)
  {
    WriteAllClosed(EMPTY, rows, life);
    var c := WriteAll(EMPTY, rows, life);
    var m := Kept(rows, life);
    if c.lines != [] && m > 0 {
      assert c.lines[0] == rows[0];
    } else if c.open {
      assert Torn in c.lines;
    }
  }

  lemma SweepStarted(sources: seq<string>, events: seq<Event>)
    requires sources != [] && events != []
    ensures Sweep(sources, events).Some?
    decreases |events|
  {
    hide Rows, Slice, WriteAll;
    if |events| > 1 {
      SweepStarted(sources, events[..|events| - 1]);
    }
  }

  /** Some event of the run left the file ending inside a line. */
  ghost predicate EverUnfinished(sources: seq<string>, events: seq<Event>) {
    exists k :: 0 <= k <= |events| && Unfinished(Sweep(sources, events[..k]))
  }

  lemma EverStep(sources: seq<string>, events: seq<Event>)
    requires events != []
    ensures EverUnfinished(sources, events) <==>
            EverUnfinished(sources, events[..|events| - 1]) || Unfinished(Sweep(sources, events))
  {
    hide Unfinished, Sweep;
    var init := events[..|events| - 1];
    assert events[..|events|] == events;
    assert forall k :: 0 <= k <= |init| ==> init[..k] == events[..k];
  }

  lemma NothingUnfinished(sources: seq<string>)
    ensures !EverUnfinished(sources, []) && Good(sources, None) && Sweep(sources, []) == None
  {
  }

  /**
   Over every run of rounds and resumes, with every process free to die anywhere: the result file is the header followed
   by one row per source for a prefix of the sorted list, without gaps or repeats, if and only if the first process lived to
   write the header and no process ever left the file ending inside a line. Otherwise it is lost for good.
   */
  lemma {:induction false} SweepGoodExactly(sources: seq<string>, events: seq<Event>)
    ensures Good(sources, Sweep(sources, events)) <==>
            !EverUnfinished(sources, events) && (sources == [] || events == [] || events[0].life.whole > 0)
    ensures !Good(sources, Sweep(sources, events)) ==> Lost(Sweep(sources, events))
    decreases |events|
  {
    hide After, Good, Lost, Unfinished, EverUnfinished;
    NothingUnfinished(sources);
    if events != [] {
      var init, last := events[..|events| - 1], events[|events| - 1];
      SweepGoodExactly(sources, init);
      EverStep(sources, events);
      var t := Sweep(sources, init);
      if Good(sources, t) {
        EventKeepsGood(sources, t, last);
        if init != [] && sources != [] {
          SweepStarted(sources, init);
        }
      } else {
        EventKeepsLost(sources, t, last);
        LostNotGood(sources, After(t, sources, last));
      }
    }
  }

  lemma LostNotGood(sources: seq<string>, t: File)
    requires Lost(t)
    ensures !Good(sources, t)
  {
    if Torn in t.value.lines {
      var i :| 0 <= i < |t.value.lines| && t.value.lines[i] == Torn;
    }
  }

  // ---------------------------------------------------------------- progress

  /** What is left never grows; a round that is not interrupted takes its whole chunk off it, or all of it. */
  lemma RoundProgress(sources: seq<string>, t: File, chunk: int, run: string -> string, life: Life)
    requires Good(sources, t)
    requires t == None ==> life.whole > 0
    ensures var left, now := Remaining(sources, t), Remaining(sources, AfterRound(t, sources, chunk, run, life));
            && 0 <= now <= left
            && (chunk > 0 && life.whole > Min(chunk, left) ==> now == left - Min(chunk, left))
            && (left == 0 ==> AfterRound(t, sources, chunk, run, life) == t)
  {
    var e := Event.Round(chunk, run, life);
    if Done(t) < |sources| {
      EventShape(sources, t, e);
      hide AfterRound, Good;
      var rows := Rows(Part(sources, Done(t), Share(sources, t, e)), run);
      WriteAllClosed(if t.Some? then t.value else EMPTY, if t.Some? then rows else [Header] + rows, life);
    }
  }

  /** A run of `n` uninterrupted rounds of one chunk size. */
  function Rounds(t: File, sources: seq<string>, chunk: int, run: string -> string, n: nat): File {
    if n == 0 then t else AfterRound(Rounds(t, sources, chunk, run, n - 1), sources, chunk, run, Life(|sources| + 1, false))
  }

  /** Uninterrupted rounds take off one chunk each until nothing is left, so they finish; the file then lists every source. */
  lemma {:induction false} RoundsFinish(t: File, sources: seq<string>, chunk: int, run: string -> string, n: nat)
    requires Good(sources, t) && chunk > 0
    ensures Good(sources, Rounds(t, sources, chunk, run, n))
    ensures Remaining(sources, Rounds(t, sources, chunk, run, n))
         == if n * chunk < Remaining(sources, t) then Remaining(sources, t) - n * chunk else 0
  {
    hide Good, AfterRound, Done;
    GoodRemaining(sources, t);
    if n > 0 {
      RoundsFinish(t, sources, chunk, run, n - 1);
      var u := Rounds(t, sources, chunk, run, n - 1);
      var life := Life(|sources| + 1, false);
      GoodRemaining(sources, u);
      RoundProgress(sources, u, chunk, run, life);
      EventKeepsGood(sources, u, Event.Round(chunk, run, life));
      NotCutShort(sources, u, Event.Round(chunk, run, life));
      assert n * chunk == (n - 1) * chunk + chunk;
    }
  }

  lemma GoodRemaining(sources: seq<string>, t: File)
    requires Good(sources, t)
    ensures 0 <= Remaining(sources, t) <= |sources|
  {
  }

  /** A process that lives between lines leaves no unfinished one. */
  lemma NotCutShort(sources: seq<string>, t: File, e: Event)
    requires Good(sources, t) && !e.life.partial
    ensures !Unfinished(After(t, sources, e))
  {
    hide AfterRound, AfterResume, Rows, Share, Part;
    if Done(t) < |sources| {
      EventShape(sources, t, e);
      var rows := Rows(Part(sources, Done(t), Share(sources, t, e)), e.run);
      WriteAllClosed(if t.Some? then t.value else EMPTY, if t.Some? then rows else [Header] + rows, e.life);
    } else {
      EventAfterEnd(sources, t, e);
    }
  }

  /** One uninterrupted resume finishes a good file. */
  lemma ResumeFinishes(sources: seq<string>, t: File, run: string -> string)
    requires Good(sources, t)
    ensures Good(sources, AfterResume(t, sources, run, Life(|sources| + 1, false)))
    ensures Remaining(sources, AfterResume(t, sources, run, Life(|sources| + 1, false))) == 0
  {
    var e := Event.Resume(run, Life(|sources| + 1, false));
    EventKeepsGood(sources, t, e);
    NotCutShort(sources, t, e);
    if Done(t) < |sources| {
      EventShape(sources, t, e);
      hide AfterResume, Good;
      var rows := Rows(Part(sources, Done(t), Share(sources, t, e)), run);
      WriteAllClosed(if t.Some? then t.value else EMPTY, if t.Some? then rows else [Header] + rows, e.life);
    }
  }

  // ---------------------------------------------------------------- what a torn row or a lost header does

  /** A torn row counts as done, so the source it was for is never run again. */
  lemma TornRowCounted(sources: seq<string>, t: File, e: Event)
    requires Good(sources, t) && t.Some? && Unfinished(After(t, sources, e))
    ensures var u := After(t, sources, e);
            && Done(u) == Done(t) + e.life.whole + 1 && Done(u) <= |sources|
            && u.value.lines[Done(u)] == Torn
  {
    hide Rows, Share, Part;
    if Done(t) < |sources| {
      EventShape(sources, t, e);
      hide AfterRound, AfterResume;
      WriteAllClosed(t.value, Rows(Part(sources, Done(t), Share(sources, t, e)), e.run), e.life);
    } else {
      EventAfterEnd(sources, t, e);
    }
  }

  lemma EmptyRound(sources: seq<string>, chunk: int, run: string -> string, life: Life)
    requires 0 < chunk <= |sources|
    ensures AfterRound(Some(EMPTY), sources, chunk, run, life) == Some(EMPTY)
  {
    hide WriteAll, Rows;
    assert Slice(sources, -1, chunk - 1) == [];
    hide Slice;
    assert Rows([], run) == [];
    assert WriteAll(EMPTY, [], life) == EMPTY by { WriteNothing(life); }
  }

  lemma WriteNothing(life: Life)
    ensures WriteAll(EMPTY, [], life) == EMPTY
  {
  }

  /**
   When the first batch dies before its header is on disk the count becomes -1. If a chunk is no longer than the list, the
   next batch starts at -1, its slice is empty, and no number of further rounds writes anything.
   */
  lemma {:induction false} EmptyFileStalls(sources: seq<string>, chunk: int, run: string -> string, n: nat)
    requires 0 < chunk <= |sources|
    ensures Done(Some(EMPTY)) == -1
    ensures Rounds(Some(EMPTY), sources, chunk, run, n) == Some(EMPTY)
  {
    hide AfterRound;
    if n > 0 {
      EmptyFileStalls(sources, chunk, run, n - 1);
      EmptyRound(sources, chunk, run, Life(|sources| + 1, false));
    }
  }

  /** With a longer chunk the next batch runs only the last source. */
  lemma EmptyFileRunsLast(sources: seq<string>, chunk: int, run: string -> string)
    requires 0 < |sources| < chunk
    ensures var last := sources[|sources| - 1];
            Rounds(Some(EMPTY), sources, chunk, run, 1) == Some(Contents([Row(last, run(last))], false))
  {
    var n := |sources|;
    var last, life := sources[n - 1], Life(|sources| + 1, false);
    var empty: File := Some(EMPTY);
    assert Rounds(empty, sources, chunk, run, 0) == empty;
    assert sources[n - 1..n] == [last] && Slice(sources, -1, n) == [last];
    assert Rows([last], run) == [Row(last, run(last))];
    var row := [Row(last, run(last))];
    WriteAllClosed(EMPTY, row, life);
    assert EMPTY.lines + row[..1] == row;
    assert WriteAll(EMPTY, row, life) == Contents(row, false);
    hide WriteAll, Slice;
    assert AfterBatch(empty, sources, -1, n + 1, run, life) == Some(WriteAll(EMPTY, [Row(last, run(last))], life));
    assert AfterRound(empty, sources, chunk, run, life) == AfterBatch(empty, sources, -1, n + 1, run, life);
  }
}
