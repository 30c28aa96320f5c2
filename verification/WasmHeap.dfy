/** The bump allocator behind mmap and mremap in the wasm32 runner, over every run of requests. */
module WasmHeap {

  const PAGE := 65_536
  const MMAP_BASE := 0x10_0000
  const MAP_ANONYMOUS := 0x20

  /** 2 GiB: as far as a signed 32-bit result can point. */
  const MAX_PAGES := 32_768

  /**
   What the host calls depend on and change: the bump pointer, the size of linear memory in pages, and the maximum size the
   module declares, which the engine enforces.
   */
  datatype Heap = Heap(bump: nat, pages: nat, limit: nat)

  const FAILED := -1

  /**
   A call from the program, with the host's side of it: whether the instance exposes a memory, and whether it
   would grant a growth that stays within the module's maximum. `Grow` is a growth from elsewhere.
   */
  datatype Call =
    | Mmap(length: int, flags: int, hasMemory: bool, grants: bool)
    | Mremap(newSize: int, hasMemory: bool, grants: bool)
    | Munmap(hasMemory: bool)
    | Grow(delta: nat)

  datatype Reply = Reply(heap: Heap, ret: int)

  /** `flags & MAP_ANONYMOUS` on a Python integer. */
  predicate Anonymous(flags: int) {
    flags / 0x20 % 2 == 1
  }

  /** `(length + page - 1) & ~(page - 1)`. */
  function Aligned(length: int): (r: int)
    ensures length > 0 ==> r >= length && r % PAGE == 0 && r - length < PAGE
  {
    (length + PAGE - 1) / PAGE * PAGE
  }

  /** `_ensure_mem_size`: the size afterwards, or nothing when the memory cannot grow that far. */
  function EnsurePages(pages: nat, limit: nat, endAddr: nat, hasMemory: bool, grants: bool): (r: int)
    ensures r >= 0 ==> r >= pages && endAddr <= r * PAGE && (pages <= limit ==> r <= limit)
    ensures r > pages ==> (r - 1) * 65_536 < endAddr
    ensures !hasMemory ==> r == -1
  {
    var need := (endAddr + PAGE - 1) / PAGE;
    if !hasMemory then -1
    else if need <= pages then pages
    else if grants && need <= limit then need
    else -1
  }

  function Allocate(h: Heap, length: int, hasMemory: bool, grants: bool): Reply {
    if length <= 0 then Reply(h, FAILED)
    else
      var end := h.bump + Aligned(length);
      var pages := EnsurePages(h.pages, h.limit, end, hasMemory, grants);
      if pages < 0 then Reply(h, FAILED) else Reply(h.(bump := end, pages := pages), h.bump)
  }

  function Step(h: Heap, c: Call): Reply {
    match c
    case Mmap(length, flags, m, g) =>
      if length > 0 && !Anonymous(flags) then Reply(h, FAILED) else Allocate(h, length, m, g)
    case Mremap(newSize, m, g) => Allocate(h, newSize, m, g)
    case Munmap(_) => Reply(h, 0)
    case Grow(delta) =>
      if h.pages + delta <= h.limit then Reply(h.(pages := h.pages + delta), h.pages) else Reply(h, FAILED)
  }

  // ---------------------------------------------------------------- the host functions

  /** The runner's mutable state: `_mmap_bump`, the instance's memory, and the word at address 0 that carries results. */
  class Runner {
    const limit: nat
    var bump: nat
    var pages: nat
    var word0: int

    constructor (pages: nat, limit: nat)
      ensures State() == Heap(MMAP_BASE, pages, limit)
    {
      this.limit := limit;
      bump, this.pages, word0 := MMAP_BASE, pages, 0;
    }

    function State(): Heap
      reads this
    {
      Heap(bump, pages, limit)
    }

    method EnsureMemSize(endAddr: nat, hasMemory: bool, grants: bool) returns (ok: bool)
      modifies this`pages
      ensures ok <==> EnsurePages(old(pages), limit, endAddr, hasMemory, grants) >= 0
      ensures pages == if ok then EnsurePages(old(pages), limit, endAddr, hasMemory, grants) else old(pages)
    {
      if !hasMemory {
        return false;
      }
      var curPages := pages;
      var needPages := (endAddr + PAGE - 1) / PAGE;
      if needPages <= curPages {
        return true;
      }
      var delta := needPages - curPages;
      if !(grants && curPages + delta <= limit) {
        return false;
      }
      pages := curPages + delta;
      return true;
    }

    /** `write_mem(0, ...)`. */
    method WriteReturn(ret: int, hasMemory: bool)
      modifies this`word0
      ensures word0 == if hasMemory then ret else old(word0)
    {
      if hasMemory {
        word0 := ret;
      }
    }

    method VumaMmap(length: int, flags: int, hasMemory: bool, grants: bool) returns (ret: int)
      modifies this
      ensures Step(old(State()), Mmap(length, flags, hasMemory, grants)) == Reply(State(), ret)
      ensures word0 == if hasMemory then ret else old(word0)
    {
      if length <= 0 {
        ret := -1;
      } else if !Anonymous(flags) {
        ret := -1;
      } else {
        var alignedLen := (length + PAGE - 1) / PAGE * PAGE;
        var ptr := bump;
        var end := ptr + alignedLen;
        var ok := EnsureMemSize(end, hasMemory, grants);
        if !ok {
          ret := -1;
        } else {
          bump := end;
          ret := ptr;
        }
      }
      WriteReturn(ret, hasMemory);
    }

    method VumaMunmap(hasMemory: bool) returns (ret: int)
      modifies this
      ensures Step(old(State()), Munmap(hasMemory)) == Reply(State(), ret)
      ensures word0 == if hasMemory then ret else old(word0)
      ensures ret == 0 && State() == old(State())
    {
      ret := 0;
      WriteReturn(ret, hasMemory);
    }

    method VumaMremap(newSize: int, hasMemory: bool, grants: bool) returns (ret: int)
      modifies this
      ensures Step(old(State()), Mremap(newSize, hasMemory, grants)) == Reply(State(), ret)
      ensures word0 == if hasMemory then ret else old(word0)
    {
      if newSize <= 0 {
        ret := -1;
      } else {
        var alignedLen := (newSize + PAGE - 1) / PAGE * PAGE;
        var ptr := bump;
        var end := ptr + alignedLen;
        var ok := EnsureMemSize(end, hasMemory, grants);
        if !ok {
          ret := -1;
        } else {
          bump := end;
          ret := ptr;
        }
      }
      WriteReturn(ret, hasMemory);
    }
  }

  // ---------------------------------------------------------------- runs

  /** A successful request: where it was placed, what was asked for, and how far the next one must stay away. */
  datatype Region = Region(start: int, requested: int, end: int)

  function Requested(c: Call): int {
    match c
    case Mmap(length, _, _, _) => length
    case Mremap(newSize, _, _) => newSize
    case _ => 0
  }

  /** The regions handed out by one call. */
  function RegionsOf(h: Heap, c: Call): seq<Region> {
    var r := Step(h, c);
    if (c.Mmap? || c.Mremap?) && r.ret != FAILED then [Region(r.ret, Requested(c), r.heap.bump)] else []
  }

  function HeapAfter(h: Heap, calls: seq<Call>): Heap
    decreases |calls|
  {
    if calls == [] then h else Step(HeapAfter(h, calls[..|calls| - 1]), calls[|calls| - 1]).heap
  }

  function Regions(h: Heap, calls: seq<Call>): seq<Region>
    decreases |calls|
  {
    if calls == [] then []
    else
      var init := calls[..|calls| - 1];
      Regions(h, init) + RegionsOf(HeapAfter(h, init), calls[|calls| - 1])
  }

  /** The regions lie end to end from the base to the bump pointer. */
  ghost predicate Tiled(rs: seq<Region>, bump: int) {
    && (rs != [] ==> rs[0].start == MMAP_BASE)
    && (forall k :: 0 < k < |rs| ==> rs[k].start == rs[k - 1].end)
    && (forall k :: 0 <= k < |rs| ==> rs[k].start % PAGE == 0 && rs[k].requested > 0 && rs[k].end >= rs[k].start + rs[k].requested)
    && (forall k :: 0 <= k < |rs| ==> rs[k].end % PAGE == 0)
    && bump == if rs == [] then MMAP_BASE else rs[|rs| - 1].end
  }

  ghost predicate Sound(h: Heap, rs: seq<Region>) {
    && Tiled(rs, h.bump) && h.pages <= h.limit
    && (rs != [] ==> h.bump <= h.pages * PAGE)
  }

  /** What one call does: nothing new, or one region from the old bump pointer to the new one. */
  lemma StepShape(h: Heap, c: Call)
    requires h.pages <= h.limit
    ensures var r, more := Step(h, c), RegionsOf(h, c);
            && h.pages <= r.heap.pages <= h.limit == r.heap.limit
            && (more == [] ==> r.heap.bump == h.bump)
            && (more != [] ==>
                  && more == [Region(h.bump, Requested(c), r.heap.bump)] && Requested(c) > 0
                  && r.heap.bump == h.bump + Aligned(Requested(c)) && r.heap.bump <= r.heap.pages * PAGE)
  {
    hide Aligned;
  }

  /** The bump pointer is itself page aligned. */
  lemma TiledAligned(rs: seq<Region>, bump: int)
    requires Tiled(rs, bump)
    ensures bump % PAGE == 0
  {
    if rs != [] {
      assert rs[|rs| - 1].end % PAGE == 0;
    }
  }

  lemma TiledAppend(rs: seq<Region>, bump: int, r: Region)
    requires Tiled(rs, bump) && r.start == bump && r.requested > 0
    requires r.end == bump + Aligned(r.requested)
    ensures Tiled(rs + [r], r.end)
  {
    TiledAligned(rs, bump);
    SumAligned(bump, Aligned(r.requested));
    hide Aligned;
    var all := rs + [r];
    forall k | 0 < k < |all|
      ensures all[k].start == all[k - 1].end
    {
      assert all[k - 1] == rs[k - 1];
      if k < |rs| {
        assert all[k] == rs[k];
      }
    }
    assert all[0].start == MMAP_BASE;
  }

  lemma SumAligned(a: int, b: int)
    requires a % PAGE == 0 && b % PAGE == 0
    ensures (a + b) % PAGE == 0
  {
  }

  lemma StepSound(h: Heap, rs: seq<Region>, c: Call)
    requires Sound(h, rs)
    ensures Sound(Step(h, c).heap, rs + RegionsOf(h, c))
    ensures h.pages <= Step(h, c).heap.pages && Step(h, c).heap.limit == h.limit
  {
    hide Step, RegionsOf, Tiled;
    StepShape(h, c);
    var more := RegionsOf(h, c);
    if more != [] {
      TiledAppend(rs, h.bump, more[0]);
    } else {
      assert rs + more == rs;
    }
  }

  lemma {:induction false} RunSound(pages: nat, limit: nat, calls: seq<Call>)
    requires pages <= limit
    ensures HeapAfter(Heap(MMAP_BASE, pages, limit), calls).limit == limit
    ensures Sound(HeapAfter(Heap(MMAP_BASE, pages, limit), calls), Regions(Heap(MMAP_BASE, pages, limit), calls))
    decreases |calls|
  {
    hide Step, RegionsOf;
    if calls != [] {
      var init := calls[..|calls| - 1];
      RunSound(pages, limit, init);
      StepSound(HeapAfter(Heap(MMAP_BASE, pages, limit), init), Regions(Heap(MMAP_BASE, pages, limit), init), calls[|calls| - 1]);
    }
  }

  /** Earlier regions end before later ones start. */
  lemma {:induction false} TiledInOrder(rs: seq<Region>, bump: int, j: nat, k: nat)
    requires Tiled(rs, bump) && j < k < |rs|
    ensures MMAP_BASE <= rs[j].start && rs[j].end <= rs[k].start && rs[k].end <= bump
    decreases k
  {
    TiledFrom(rs, bump, j);
    TiledUntil(rs, bump, k);
    if j < k - 1 {
      TiledInOrder(rs, bump, j, k - 1);
    }
  }

  lemma {:induction false} TiledFrom(rs: seq<Region>, bump: int, k: nat)
    requires Tiled(rs, bump) && k < |rs|
    ensures MMAP_BASE <= rs[k].start
    decreases k
  {
    if k > 0 {
      TiledFrom(rs, bump, k - 1);
      assert rs[k].start == rs[k - 1].end;
    }
  }

  lemma {:induction false} TiledUntil(rs: seq<Region>, bump: int, k: nat)
    requires Tiled(rs, bump) && k < |rs|
    ensures rs[k].end <= bump
    decreases |rs| - k
  {
    if k + 1 < |rs| {
      TiledUntil(rs, bump, k + 1);
    }
  }

  /**
   Over every run of requests and outside growth: each region ever handed out is page aligned, at or above 1 MiB, inside
   linear memory, at least as long as asked for, addressable as a signed 32-bit value, and clear of the result word at
   address 0; and any two of them are disjoint.
   */
  lemma RunSafety(pages: nat, limit: nat, calls: seq<Call>, j: nat, k: nat)
    requires pages <= limit <= MAX_PAGES
    requires j < |Regions(Heap(MMAP_BASE, pages, limit), calls)| && k < |Regions(Heap(MMAP_BASE, pages, limit), calls)|
    ensures var rs := Regions(Heap(MMAP_BASE, pages, limit), calls);
            && rs[k].start % 65_536 == 0
            && 1_048_576 <= rs[k].start < 0x8000_0000
            && rs[k].end <= HeapAfter(Heap(MMAP_BASE, pages, limit), calls).pages * 65_536
            && rs[k].start + rs[k].requested <= rs[k].end
            && (j < k ==> rs[j].end <= rs[k].start)
  {
    hide HeapAfter, Regions;
    var h := HeapAfter(Heap(MMAP_BASE, pages, limit), calls);
    var rs := Regions(Heap(MMAP_BASE, pages, limit), calls);
    RunSound(pages, limit, calls);
    TiledFrom(rs, h.bump, k);
    TiledUntil(rs, h.bump, k);
    if j < k {
      TiledInOrder(rs, h.bump, j, k);
    }
  }

  /** The memory does not reach as far as the request and will not grow that far. */
  predicate OutOfMemory(h: Heap, length: int, hasMemory: bool, grants: bool) {
    var end := h.bump + Aligned(length);
    !hasMemory || (end > h.pages * PAGE && (!grants || end > h.limit * PAGE))
  }

  /** A refused request changes neither the bump pointer nor the memory, and is refused for one of these reasons only. */
  lemma RefusalExact(h: Heap, length: int, flags: int, hasMemory: bool, grants: bool)
    ensures var r := Step(h, Mmap(length, flags, hasMemory, grants));
            && (r.ret == FAILED ==> r.heap == h)
            && (r.ret == FAILED <==> length <= 0 || !Anonymous(flags) || OutOfMemory(h, length, hasMemory, grants))
    ensures var r := Step(h, Mremap(length, hasMemory, grants));
            && (r.ret == FAILED ==> r.heap == h)
            && (r.ret == FAILED <==> length <= 0 || OutOfMemory(h, length, hasMemory, grants))
  {
  }

  /** `flags & 0x20` looks at the bit worth 32, also of a negative number. */
  lemma AnonymousBit(flags: int, high: int, bit: bool, low: int)
    requires flags == 64 * high + (if bit then 32 else 0) + low && 0 <= low < 32
    ensures Anonymous(flags) <==> bit
  {
    assert flags / 32 == 2 * high + (if bit then 1 else 0);
  }

  /**
   A request that is granted returns the old bump pointer, moves it by the least multiple of 64 KiB that is long enough, and
   grows the memory no further than to the page that holds the end.
   */
  lemma GrantExact(h: Heap, length: int, flags: int, hasMemory: bool, grants: bool)
    ensures Granted(h, length, Step(h, Mmap(length, flags, hasMemory, grants)))
    ensures Granted(h, length, Step(h, Mremap(length, hasMemory, grants)))
  {
  }

  ghost predicate Granted(h: Heap, length: int, r: Reply) {
    r.ret != -1 ==>
      var moved, pages := r.heap.bump - h.bump, r.heap.pages;
      && r.ret == h.bump && r.heap.limit == h.limit
      && moved % 65_536 == 0 && length <= moved < length + 65_536
      && pages >= h.pages && r.heap.bump <= pages * 65_536
      && (pages > h.pages ==> (pages - 1) * 65_536 < r.heap.bump)
  }

  /** The first region of every run starts at 1 MiB. */
  lemma {:induction false} FirstRegion(pages: nat, limit: nat, calls: seq<Call>)
    requires pages <= limit
    ensures var rs := Regions(Heap(0x10_0000, pages, limit), calls); rs != [] ==> rs[0].start == 1_048_576
  {
    hide HeapAfter, Regions;
    RunSound(pages, limit, calls);
  }

  /** Unmapping frees nothing; growth from elsewhere returns the old size, within the maximum. */
  lemma OtherCalls(h: Heap, hasMemory: bool, delta: nat)
    ensures Step(h, Munmap(hasMemory)) == Reply(h, 0)
    ensures Step(h, Grow(delta)) == if h.pages + delta <= h.limit then Reply(Heap(h.bump, h.pages + delta, h.limit), h.pages)
                                    else Reply(h, -1)
  {
  }
}
