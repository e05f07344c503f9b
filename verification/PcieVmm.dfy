/** The bitmap allocator of virtual pages for PCIe device memory. */
module PcieVmm {
  import opened Bits
  import opened FreeLists

  const PCIE_VMM_START: nat := 0xFFFF_FA00_0000_0000

  /** A run of pages. */
  datatype Range = Range(start: nat, count: nat)

  predicate Within(r: Range, p: nat) { r.start <= p < r.start + r.count }

  // ---- bitmaps of 128-bit words ----

  predicate PageBit(words: seq<nat>, p: nat)
    requires p / 128 < |words|
  {
    Bit(words[p / 128], p % 128)
  }

  ghost predicate IsBitmap(words: seq<nat>, pages: nat) {
    && pages >= 1 && |words| == (pages + 127) / 128
    && (forall i :: 0 <= i < |words| ==> words[i] < Pow2(128))
    && (forall p: nat :: pages <= p && p / 128 < |words| ==> !PageBit(words, p))
  }

  function Marked(words: seq<nat>, p: nat): seq<nat>
    requires p / 128 < |words|
  {
    words[p / 128 := Or(words[p / 128], Pow2(p % 128))]
  }

  function Unmarked(words: seq<nat>, p: nat): seq<nat>
    requires p / 128 < |words| && words[p / 128] < Pow2(128)
  {
    Pow2Order(p % 128, 128);
    words[p / 128 := And(words[p / 128], Not(128, Pow2(p % 128)))]
  }

  lemma {:induction false} MarkedBits(words: seq<nat>, pages: nat, p: nat)
    requires IsBitmap(words, pages) && p < pages
    ensures IsBitmap(Marked(words, p), pages)
    ensures forall q: nat :: q / 128 < |words| ==> (PageBit(Marked(words, p), q) <==> PageBit(words, q) || q == p)
  {
    SetBit(128, words[p / 128], p % 128);
    forall q: nat | q / 128 < |words| ensures PageBit(Marked(words, p), q) <==> PageBit(words, q) || q == p {
      assert q == p <==> q / 128 == p / 128 && q % 128 == p % 128;
    }
  }

  lemma {:induction false} UnmarkedBits(words: seq<nat>, pages: nat, p: nat)
    requires IsBitmap(words, pages) && p < pages
    ensures IsBitmap(Unmarked(words, p), pages)
    ensures forall q: nat :: q / 128 < |words| ==> (PageBit(Unmarked(words, p), q) <==> PageBit(words, q) && q != p)
  {
    ClearBit(128, words[p / 128], p % 128);
    forall q: nat | q / 128 < |words| ensures PageBit(Unmarked(words, p), q) <==> PageBit(words, q) && q != p {
      assert q == p <==> q / 128 == p / 128 && q % 128 == p % 128;
    }
  }

  /** Two bitmaps with the same bits are the same words. */
  lemma {:induction false} SameBitsSameWords(v: seq<nat>, w: seq<nat>, pages: nat)
    requires IsBitmap(v, pages) && IsBitmap(w, pages)
    requires forall p: nat :: p / 128 < |v| ==> (PageBit(v, p) <==> PageBit(w, p))
    ensures v == w
  {
    forall i | 0 <= i < |v| ensures v[i] == w[i] {
      forall j: nat | j < 128 ensures Bit(v[i], j) <==> Bit(w[i], j) {
        assert (128 * i + j) / 128 == i && (128 * i + j) % 128 == j;
        assert PageBit(v, 128 * i + j) <==> PageBit(w, 128 * i + j);
      }
      SameBitsSameWord(v[i], w[i], 128);
    }
  }

  lemma {:induction false} SameBitsSameWord(x: nat, y: nat, width: nat)
    requires x < Pow2(width) && y < Pow2(width)
    requires forall j: nat :: j < width ==> (Bit(x, j) <==> Bit(y, j))
    ensures x == y
  {
    if width > 0 {
      forall j: nat | j < width - 1 ensures Bit(x / 2, j) <==> Bit(y / 2, j) {
        assert Bit(x, j + 1) <==> Bit(y, j + 1);
      }
      SameBitsSameWord(x / 2, y / 2, width - 1);
      assert Bit(x, 0) <==> Bit(y, 0);
    }
  }

  // ---- counting ----

  function CountTo(words: seq<nat>, n: nat): nat
    requires n <= 128 * |words|
  {
    if n == 0 then 0 else CountTo(words, n - 1) + (if PageBit(words, n - 1) then 1 else 0)
  }

  lemma {:induction false} CountInWord(words: seq<nat>, k: nat, start: nat, j: nat)
    requires k < |words| && start == 128 * k && j <= 128
    ensures CountTo(words, start + j) == CountTo(words, start) + BitsBelow(words[k], j)
  {
    if j > 0 {
      CountInWord(words, k, start, j - 1);
      assert (start + j - 1) / 128 == k && (start + j - 1) % 128 == j - 1;
    }
  }

  /** How many pages of the run lie below `m`. */
  function Below(r: Range, m: nat): nat {
    if m <= r.start then 0 else if r.start + r.count <= m then r.count else m - r.start
  }

  /** Adding a free run to the set bits adds its length to the count. */
  lemma {:induction false} CountAdded(v: seq<nat>, w: seq<nat>, r: Range, m: nat)
    requires |v| == |w| && m <= 128 * |v|
    requires forall p: nat :: p < m ==> (PageBit(w, p) <==> PageBit(v, p) || Within(r, p))
    requires forall p: nat :: p < m && Within(r, p) ==> !PageBit(v, p)
    ensures CountTo(w, m) == CountTo(v, m) + Below(r, m)
  {
    if m > 0 { CountAdded(v, w, r, m - 1); }
  }

  // ---- live mappings ----

  function SumPages(live: seq<Range>): nat {
    if live == [] then 0 else SumPages(live[..|live| - 1]) + live[|live| - 1].count
  }

  function Dropped<T>(s: seq<T>, k: nat): seq<T>
    requires k < |s|
  {
    s[..k] + s[k + 1..]
  }

  lemma {:induction false} SumDropped(live: seq<Range>, k: nat)
    requires k < |live|
    ensures SumPages(Dropped(live, k)) + live[k].count == SumPages(live)
    decreases |live|
  {
    var n := |live| - 1;
    if k == n {
      assert Dropped(live, k) == live[..n];
    } else {
      SumDropped(live[..n], k);
      assert Dropped(live, k)[..n - 1] == Dropped(live[..n], k);
    }
  }

  ghost predicate Covers(live: seq<Range>, p: nat) {
    exists k :: 0 <= k < |live| && Within(live[k], p)
  }

  /** Live mappings are disjoint runs inside the region, and the set bits are exactly their pages. */
  ghost predicate Exact(words: seq<nat>, pages: nat, live: seq<Range>) {
    && IsBitmap(words, pages)
    && RunsApart(live, pages)
    && (forall p: nat :: p < pages ==> (PageBit(words, p) <==> Covers(live, p)))
    && CountTo(words, pages) == SumPages(live)
  }

  ghost predicate FreeRun(words: seq<nat>, pages: nat, s: nat, n: nat)
    requires IsBitmap(words, pages)
  {
    s + n <= pages && forall p: nat :: s <= p < s + n ==> !PageBit(words, p)
  }

  lemma {:induction false} MapExact(words: seq<nat>, pages: nat, live: seq<Range>, r: Range, words': seq<nat>)
    requires Exact(words, pages, live) && IsBitmap(words', pages)
    requires r.count >= 1 && FreeRun(words, pages, r.start, r.count)
    requires forall p: nat :: p / 128 < |words| ==> (PageBit(words', p) <==> PageBit(words, p) || Within(r, p))
    ensures Exact(words', pages, live + [r])
  {
    var live' := live + [r];
    forall p: nat | p < pages ensures PageBit(words', p) <==> Covers(live', p) {
      if Covers(live, p) {
        var k :| 0 <= k < |live| && Within(live[k], p);
        assert live'[k] == live[k];
      }
      if Within(r, p) { assert live'[|live|] == r; }
    }
    forall j | 0 <= j < |live| ensures live[j].start + live[j].count <= r.start || r.start + r.count <= live[j].start {
      var p := if live[j].start < r.start then r.start else live[j].start;
      if Within(live[j], p) { assert Covers(live, p) && PageBit(words, p); }
    }
    CountAdded(words, words', r, pages);
    assert live'[..|live|] == live;
  }

  lemma {:induction false} UnmapExact(words: seq<nat>, pages: nat, live: seq<Range>, k: nat, words': seq<nat>)
    requires Exact(words, pages, live) && IsBitmap(words', pages) && k < |live|
    requires forall p: nat :: p / 128 < |words| ==> (PageBit(words', p) <==> PageBit(words, p) && !Within(live[k], p))
    ensures Exact(words', pages, Dropped(live, k))
  {
    forall p: nat | p < pages ensures PageBit(words', p) <==> Covers(Dropped(live, k), p) {
      DroppedCovers(live, k, p);
    }
    forall p: nat | p < pages && Within(live[k], p) ensures PageBit(words, p) { assert Covers(live, p); }
    CountAdded(words', words, live[k], pages);
    SumDropped(live, k);
    DroppedApart(live, k, pages);
  }

  ghost predicate NoneSet(words: seq<nat>, pages: nat, r: Range)
    requires IsBitmap(words, pages)
  {
    forall p: nat :: p < pages && Within(r, p) ==> !PageBit(words, p)
  }

  /** Clearing a run that is not a mapping keeps bits and mappings in agreement only by clearing
      nothing. */
  lemma {:induction false} UnmapStray(words: seq<nat>, pages: nat, live: seq<Range>, r: Range, words': seq<nat>)
    requires Exact(words, pages, live) && IsBitmap(words', pages)
    requires forall p: nat :: p / 128 < |words| ==> (PageBit(words', p) <==> PageBit(words, p) && !Within(r, p))
    ensures Exact(words', pages, live) <==> NoneSet(words, pages, r)
  {
    if NoneSet(words, pages, r) {
      SameBitsSameWords(words', words, pages);
    } else {
      var p: nat :| p < pages && Within(r, p) && PageBit(words, p);
      assert Covers(live, p) && !PageBit(words', p);
    }
  }

  ghost predicate RunsApart(live: seq<Range>, pages: nat) {
    && (forall k :: 0 <= k < |live| ==> live[k].count >= 1 && live[k].start + live[k].count <= pages)
    && (forall j, k :: 0 <= j < k < |live| ==>
          live[j].start + live[j].count <= live[k].start || live[k].start + live[k].count <= live[j].start)
  }

  lemma {:induction false} DroppedApart(live: seq<Range>, k: nat, pages: nat)
    requires RunsApart(live, pages) && k < |live|
    ensures RunsApart(Dropped(live, k), pages)
  {
    assert forall i :: 0 <= i < |live| - 1 ==> Dropped(live, k)[i] == live[if i < k then i else i + 1];
  }

  lemma {:induction false} DroppedCovers(live: seq<Range>, k: nat, p: nat)
    requires k < |live|
    requires forall i, j :: 0 <= i < j < |live| ==>
      live[i].start + live[i].count <= live[j].start || live[j].start + live[j].count <= live[i].start
    ensures Covers(Dropped(live, k), p) <==> Covers(live, p) && !Within(live[k], p)
  {
    var live' := Dropped(live, k);
    if Covers(live, p) && !Within(live[k], p) {
      var i :| 0 <= i < |live| && Within(live[i], p);
      assert live'[if i < k then i else i - 1] == live[i];
    }
    if Covers(live', p) {
      var i :| 0 <= i < |live'| && Within(live'[i], p);
      var j := if i < k then i else i + 1;
      assert live'[i] == live[j] && Within(live[j], p);
    }
  }

  /** Mapping and then unmapping the same run restores the bitmap, word for word. */
  lemma {:induction false} UnmapUndoesMap(words: seq<nat>, pages: nat, r: Range, mapped: seq<nat>, after: seq<nat>)
    requires IsBitmap(words, pages) && IsBitmap(mapped, pages) && IsBitmap(after, pages)
    requires FreeRun(words, pages, r.start, r.count)
    requires forall p: nat :: p / 128 < |words| ==> (PageBit(mapped, p) <==> PageBit(words, p) || Within(r, p))
    requires forall p: nat :: p / 128 < |words| ==> (PageBit(after, p) <==> PageBit(mapped, p) && !Within(r, p))
    ensures after == words
  {
    SameBitsSameWords(after, words, pages);
  }

  datatype BarError = InvalidDevice | AllocationFailed | EcamMappingFailed

  datatype MappedBar = MappedBar(virtual: nat, physical: nat, size: nat, prefetchable: bool)

  datatype MapResult = Mapped(bar: MappedBar) | Failed(error: BarError)

  function PagesFor(size: nat): nat { (size + 4095) / 4096 }

  /** The pages that a mapping with this address and size occupies. */
  function RunOf(bar: MappedBar): Range
    requires bar.virtual >= PCIE_VMM_START
  {
    Range((bar.virtual - PCIE_VMM_START) / 4096, PagesFor(bar.size))
  }

  /** Mapping hands out exactly the address and size that lead back to its run. */
  lemma {:induction false} RunOfMapped(start: nat, size: nat, physical: nat, prefetchable: bool)
    ensures RunOf(MappedBar(PCIE_VMM_START + start * 4096, physical, size, prefetchable)) ==
      Range(start, PagesFor(size))
  {
  }

  /** The fewest pages that hold `size` bytes. */
  lemma {:induction false} PagesForCovers(size: nat)
    ensures size <= 4096 * PagesFor(size) < size + 4096
  {
    assert size + 4095 == 4096 * ((size + 4095) / 4096) + (size + 4095) % 4096;
  }

  /** `bars` are the mappings handed out for the runs `live`. */
  ghost predicate BarsOf(bars: seq<MappedBar>, live: seq<Range>) {
    && |bars| == |live|
    && forall k :: 0 <= k < |live| ==>
         bars[k].virtual == PCIE_VMM_START + live[k].start * 4096 && RunOf(bars[k]) == live[k]
  }

  lemma {:induction false} DroppedBars(bars: seq<MappedBar>, live: seq<Range>, k: nat)
    requires BarsOf(bars, live) && k < |live|
    ensures BarsOf(Dropped(bars, k), Dropped(live, k))
  {
    forall i | 0 <= i < |live| - 1
      ensures var j := if i < k then i else i + 1; Dropped(bars, k)[i] == bars[j] && Dropped(live, k)[i] == live[j]
    {
    }
  }

  /** One mapping of `run` is gone, and the others are as before. */
  ghost predicate DropsOne(live: seq<Range>, bars: seq<MappedBar>, run: Range,
                           live': seq<Range>, bars': seq<MappedBar>) {
    exists k :: 0 <= k < |live| == |bars| && live[k] == run && live' == Dropped(live, k) && bars' == Dropped(bars, k)
  }

  /** The `n` pages at `s` hold a page of some live mapping. */
  ghost predicate Blocked(live: seq<Range>, s: nat, n: nat) {
    exists k :: 0 <= k < |live| && live[k].start < s + n && s < live[k].start + live[k].count
  }

  /** A run of pages is free exactly if no live mapping reaches into it. */
  lemma {:induction false} FreeRunIffClear(words: seq<nat>, pages: nat, live: seq<Range>, s: nat, n: nat)
    requires Exact(words, pages, live) && n >= 1
    ensures FreeRun(words, pages, s, n) <==> s + n <= pages && !Blocked(live, s, n)
  {
    if s + n <= pages {
      if p: nat :| s <= p < s + n && PageBit(words, p) {
        assert Covers(live, p);
        var k :| 0 <= k < |live| && Within(live[k], p);
        assert live[k].start < s + n && s < live[k].start + live[k].count;
      }
      if Blocked(live, s, n) {
        var k :| 0 <= k < |live| && live[k].start < s + n && s < live[k].start + live[k].count;
        var p := if live[k].start < s then s else live[k].start;
        assert Within(live[k], p) && Covers(live, p) && PageBit(words, p);
      }
    }
  }

  /** When no run of the pages needed is free, neither is any run that holds the bytes. */
  lemma {:induction false} NoRoom(words: seq<nat>, pages: nat, live: seq<Range>, size: nat)
    requires Exact(words, pages, live) && size >= 1
    requires forall s: nat :: !FreeRun(words, pages, s, PagesFor(size))
    ensures forall s: nat, n: nat :: size <= 4096 * n && s + n <= pages ==> Blocked(live, s, n)
  {
    var m := PagesFor(size);
    PagesForCovers(size);
    forall s: nat, n: nat | size <= 4096 * n && s + n <= pages ensures Blocked(live, s, n) {
      FreeRunIffClear(words, pages, live, s, m);
      var k :| 0 <= k < |live| && live[k].start < s + m && s < live[k].start + live[k].count;
      assert m <= n;
    }
  }

  class Vmm {
    const pages: nat
    const bitmap: array<nat>
    var nextSearchStart: nat
    ghost var live: seq<Range>
    ghost var bars: seq<MappedBar>

    ghost predicate Valid()
      reads this, bitmap
    {
      Exact(bitmap[..], pages, live) && BarsOf(bars, live) && nextSearchStart < pages
    }

    constructor (pages: nat)
      requires pages >= 1
      ensures Valid() && this.pages == pages && live == [] && bars == [] && fresh(bitmap)
    {
      this.pages := pages;
      var words := new nat[(pages + 127) / 128](_ => 0);
      bitmap := words;
      nextSearchStart := 0;
      live, bars := [], [];
      new;
      ZeroBitmap(bitmap[..], pages);
    }

    method IsPageAllocated(page: nat) returns (b: bool)
      requires IsBitmap(bitmap[..], pages)
      ensures b <==> page >= pages || PageBit(bitmap[..], page)
    {
      if page >= pages {
        return true;
      }
      TestBit(bitmap[page / 128], page % 128);
      b := And(bitmap[page / 128], Pow2(page % 128)) != 0;
    }

    method IsRangeFree(start: nat, count: nat) returns (b: bool)
      requires IsBitmap(bitmap[..], pages)
      ensures b <==> count == 0 || FreeRun(bitmap[..], pages, start, count)
    {
      for i := start to start + count
        invariant i == start || i <= pages
        invariant forall p: nat :: start <= p < i ==> !PageBit(bitmap[..], p)
      {
        var taken := IsPageAllocated(i);
        if taken {
          return false;
        }
      }
      return true;
    }

    /** Searches from the hint to the end and then from the start to the hint: it finds a free run
        exactly when one exists. */
    method FindFreePages(needed: nat) returns (r: Option<nat>)
      requires Valid()
      ensures r.Some? ==> FreeRun(bitmap[..], pages, r.value, needed)
      ensures r.None? ==> forall s: nat :: !FreeRun(bitmap[..], pages, s, needed)
      ensures r.Some? ==> forall s: nat :: FreeRun(bitmap[..], pages, s, needed) ==>
        if r.value >= nextSearchStart then s >= r.value || s < nextSearchStart else r.value <= s < nextSearchStart
    {
      if needed > pages {
        return None;
      }
      var start := nextSearchStart;
      while start <= pages - needed
        invariant nextSearchStart <= start
        invariant forall s: nat :: nextSearchStart <= s < start ==> !FreeRun(bitmap[..], pages, s, needed)
        decreases pages - start
      {
        var ok := IsRangeFree(start, needed);
        if ok {
          return Some(start);
        }
        start := start + 1;
      }
      assert forall s: nat :: s >= nextSearchStart ==> !FreeRun(bitmap[..], pages, s, needed);
      var limit := if nextSearchStart < pages - needed + 1 then nextSearchStart else pages - needed + 1;
      for s := 0 to limit
        invariant forall u: nat :: u < s ==> !FreeRun(bitmap[..], pages, u, needed)
      {
        var ok := IsRangeFree(s, needed);
        if ok {
          return Some(s);
        }
      }
      return None;
    }

    method SetPageAllocated(page: nat)
      requires IsBitmap(bitmap[..], pages)
      modifies bitmap
      ensures IsBitmap(bitmap[..], pages)
      ensures forall q: nat :: q / 128 < bitmap.Length ==>
        (PageBit(bitmap[..], q) <==> PageBit(old(bitmap[..]), q) || (q == page && page < pages))
    {
      if page < pages {
        MarkedBits(bitmap[..], pages, page);
        bitmap[page / 128] := Or(bitmap[page / 128], Pow2(page % 128));
        assert bitmap[..] == Marked(old(bitmap[..]), page);
      }
    }

    method SetPageFree(page: nat)
      requires IsBitmap(bitmap[..], pages)
      modifies bitmap
      ensures IsBitmap(bitmap[..], pages)
      ensures forall q: nat :: q / 128 < bitmap.Length ==>
        (PageBit(bitmap[..], q) <==> PageBit(old(bitmap[..]), q) && q != page)
    {
      if page < pages {
        UnmarkedBits(bitmap[..], pages, page);
        Pow2Order(page % 128, 128);
        bitmap[page / 128] := And(bitmap[page / 128], Not(128, Pow2(page % 128)));
        assert bitmap[..] == Unmarked(old(bitmap[..]), page);
      }
    }

    method MarkRange(start: nat, count: nat)
      requires IsBitmap(bitmap[..], pages) && start + count <= pages
      modifies bitmap
      ensures IsBitmap(bitmap[..], pages)
      ensures forall q: nat :: q / 128 < bitmap.Length ==>
        (PageBit(bitmap[..], q) <==> PageBit(old(bitmap[..]), q) || Within(Range(start, count), q))
    {
      for i := start to start + count
        invariant IsBitmap(bitmap[..], pages)
        invariant forall q: nat :: q / 128 < bitmap.Length ==>
          (PageBit(bitmap[..], q) <==> PageBit(old(bitmap[..]), q) || start <= q < i)
      {
        SetPageAllocated(i);
      }
    }

    method ClearRange(start: nat, count: nat)
      requires IsBitmap(bitmap[..], pages)
      modifies bitmap
      ensures IsBitmap(bitmap[..], pages)
      ensures forall q: nat :: q / 128 < bitmap.Length ==>
        (PageBit(bitmap[..], q) <==> PageBit(old(bitmap[..]), q) && !Within(Range(start, count), q))
    {
      for i := start to start + count
        invariant IsBitmap(bitmap[..], pages)
        invariant forall q: nat :: q / 128 < bitmap.Length ==>
          (PageBit(bitmap[..], q) <==> PageBit(old(bitmap[..]), q) && !(start <= q < i))
      {
        if i < pages {
          SetPageFree(i);
        }
      }
    }

    /** Maps a memory BAR. `mapOk` is the outcome of writing the page tables. The result says which
        of the four outcomes occurred, and only success changes anything: the run found becomes
        live and its bits are set. */
    method MapMemoryBar(physical: nat, size: nat, prefetchable: bool, mapOk: bool)
      returns (r: MapResult, ghost run: Range)
      requires Valid()
      modifies this, bitmap
      ensures Valid()
      ensures r == Failed(InvalidDevice) <==> size == 0 || physical == 0
      ensures r == Failed(AllocationFailed) <==>
        size != 0 && physical != 0 && forall s: nat :: !FreeRun(old(bitmap[..]), pages, s, PagesFor(size))
      ensures r == Failed(AllocationFailed) ==>
        forall s: nat, n: nat :: size <= 4096 * n && s + n <= pages ==> Blocked(live, s, n)
      ensures r == Failed(EcamMappingFailed) ==> !mapOk
      ensures r.Failed? ==> bitmap[..] == old(bitmap[..])
      ensures r.Failed? ==> live == old(live) && bars == old(bars) && nextSearchStart == old(nextSearchStart)
      ensures r.Mapped? ==> size <= 4096 * run.count < size + 4096
      ensures r.Mapped? ==>
        && mapOk && run.count == PagesFor(size) && FreeRun(old(bitmap[..]), pages, run.start, run.count)
        && r.bar == MappedBar(PCIE_VMM_START + run.start * 4096, physical, size, prefetchable) && RunOf(r.bar) == run
        && live == old(live) + [run] && bars == old(bars) + [r.bar]
        && nextSearchStart == (if run.start + run.count < pages then run.start + run.count else 0)
        && forall q: nat :: q / 128 < bitmap.Length ==> (PageBit(bitmap[..], q) <==>
          PageBit(old(bitmap[..]), q) || Within(run, q))
    {
      run := Range(0, 0);
      if size == 0 || physical == 0 {
        return Failed(InvalidDevice), run;
      }
      var needed := PagesFor(size);
      var found := FindFreePages(needed);
      PagesForCovers(size);
      if found.None? {
        NoRoom(bitmap[..], pages, live, size);
        return Failed(AllocationFailed), run;
      }
      assert FreeRun(bitmap[..], pages, found.value, needed);
      if !mapOk {
        return Failed(EcamMappingFailed), run;
      }
      run := Range(found.value, needed);
      MarkRange(found.value, needed);
      MapExact(old(bitmap[..]), pages, live, run, bitmap[..]);
      live := live + [run];
      nextSearchStart := found.value + needed;
      if nextSearchStart >= pages {
        nextSearchStart := 0;
      }
      RunOfMapped(found.value, size, physical, prefetchable);
      r := Mapped(MappedBar(PCIE_VMM_START + found.value * 4096, physical, size, prefetchable));
      bars := bars + [r.bar];
    }

    /** Unmaps a BAR, whose run is recovered from its address and size, and clears exactly the bits of
        that run. A live run is dropped from the mappings. Any other run leaves bits and mappings in
        agreement exactly when it holds no allocated page. */
    method UnmapBar(bar: MappedBar, unmapOk: bool) returns (ok: bool)
      requires Valid() && bar.virtual >= PCIE_VMM_START
      modifies this, bitmap
      ensures ok == unmapOk && IsBitmap(bitmap[..], pages)
      ensures !ok ==> bitmap[..] == old(bitmap[..]) && nextSearchStart == old(nextSearchStart)
      ensures !ok ==> live == old(live) && bars == old(bars)
      ensures ok ==> forall q: nat :: q / 128 < bitmap.Length ==>
        (PageBit(bitmap[..], q) <==> PageBit(old(bitmap[..]), q) && !Within(RunOf(bar), q))
      ensures ok && RunOf(bar).start < old(nextSearchStart) ==> nextSearchStart == RunOf(bar).start
      ensures ok && RunOf(bar).start >= old(nextSearchStart) ==> nextSearchStart == old(nextSearchStart)
      ensures ok && RunOf(bar) in old(live) ==>
        Valid() && DropsOne(old(live), old(bars), RunOf(bar), live, bars)
      ensures ok && RunOf(bar) !in old(live) ==>
        live == old(live) && bars == old(bars) && (Valid() <==> NoneSet(old(bitmap[..]), pages, RunOf(bar)))
    {
      var count := PagesFor(bar.size);
      var start := (bar.virtual - PCIE_VMM_START) / 4096;
      if !unmapOk {
        return false;
      }
      ClearRange(start, count);
      if start < nextSearchStart {
        nextSearchStart := start;
      }
      Forget(old(bitmap[..]), RunOf(bar));
      ok := true;
    }

    /** The mappings after the bits of `run` have been cleared. */
    ghost method Forget(before: seq<nat>, run: Range)
      requires Exact(before, pages, live) && BarsOf(bars, live) && nextSearchStart < pages
      requires IsBitmap(bitmap[..], pages)
      requires forall q: nat :: q / 128 < |before| ==>
        (PageBit(bitmap[..], q) <==> PageBit(before, q) && !Within(run, q))
      modifies this`live, this`bars
      ensures run in old(live) ==> Valid() && DropsOne(old(live), old(bars), run, live, bars)
      ensures run !in old(live) ==>
        live == old(live) && bars == old(bars) && (Valid() <==> NoneSet(before, pages, run))
    {
      if run in live {
        var k :| 0 <= k < |live| && live[k] == run;
        UnmapExact(before, pages, live, k, bitmap[..]);
        DroppedBars(bars, live, k);
        live, bars := Dropped(live, k), Dropped(bars, k);
      } else {
        UnmapStray(before, pages, live, run, bitmap[..]);
      }
    }

    /** Unmapping a BAR that is mapped is unmapping a live run. */
    lemma {:induction false} MappedIsLive(bar: MappedBar)
      requires Valid() && bar in bars
      ensures bar.virtual >= PCIE_VMM_START && RunOf(bar) in live
    {
      var k :| 0 <= k < |bars| && bars[k] == bar;
      assert live[k] == RunOf(bar);
    }

    /** No byte belongs to two BARs that are mapped at the same time, and none is outside the region. */
    lemma {:induction false} LiveBarsDisjoint(j: nat, k: nat)
      requires Valid() && j < |bars| && k < |bars| && j != k
      ensures bars[j].virtual + bars[j].size <= bars[k].virtual || bars[k].virtual + bars[k].size <= bars[j].virtual
      ensures PCIE_VMM_START <= bars[j].virtual && bars[j].virtual + bars[j].size <= PCIE_VMM_START + pages * 4096
    {
      PagesForCovers(bars[j].size);
      PagesForCovers(bars[k].size);
      var x, y := if j < k then j else k, if j < k then k else j;
      assert live[x].start + live[x].count <= live[y].start || live[y].start + live[y].count <= live[x].start;
    }

    /** Counts word by word, masking the last word: the result is the number of live pages. */
    method CountAllocatedPages() returns (count: nat)
      requires Valid()
      ensures count == SumPages(live) == CountTo(bitmap[..], pages) <= pages
    {
      count := CountBits();
      CountBounded(bitmap[..], pages);
    }

    method CountBits() returns (count: nat)
      requires IsBitmap(bitmap[..], pages)
      ensures count == CountTo(bitmap[..], pages)
    {
      ghost var words := bitmap[..];
      var last := bitmap.Length - 1;
      count := 0;
      ghost var done: nat := 0;
      for i := 0 to last
        invariant done == 128 * i && count == CountTo(words, done)
      {
        CountOnesCountsBits(words[i], 128);
        CountInWord(words, i, done, 128);
        count := count + CountOnes(bitmap[i]);
        done := done + 128;
      }
      var tail := CountLastWord();
      CountInWord(words, last, done, pages - done);
      count := count + tail;
    }

    /** Bits beyond the region are masked off before counting the last word. */
    method CountLastWord() returns (count: nat)
      requires IsBitmap(bitmap[..], pages)
      ensures count == BitsBelow(bitmap[bitmap.Length - 1], pages - 128 * (bitmap.Length - 1))
    {
      var lastWord := bitmap[bitmap.Length - 1];
      var totalBits := bitmap.Length * 128;
      if totalBits > pages {
        var valid := 128 - (totalBits - pages);
        MaskedCount(lastWord, valid);
        count := CountOnes(And(lastWord, Pow2(valid) - 1));
      } else {
        assert lastWord == bitmap[..][bitmap.Length - 1];
        CountOnesCountsBits(lastWord, 128);
        count := CountOnes(lastWord);
      }
    }
  }

  lemma {:induction false} CountBounded(words: seq<nat>, n: nat)
    requires n <= 128 * |words|
    ensures CountTo(words, n) <= n
  {
    if n > 0 { CountBounded(words, n - 1); }
  }

  lemma {:induction false} ZeroBitmap(words: seq<nat>, pages: nat)
    requires pages >= 1 && |words| == (pages + 127) / 128 && forall i :: 0 <= i < |words| ==> words[i] == 0
    ensures Exact(words, pages, [])
  {
    forall p: nat | p / 128 < |words| ensures !PageBit(words, p) { BitOfZero(p % 128); }
    assert IsBitmap(words, pages);
    forall p: nat | p < pages ensures !Covers([], p) { }
    ZeroCount(words, pages);
  }

  lemma {:induction false} ZeroCount(words: seq<nat>, n: nat)
    requires n <= 128 * |words| && forall p: nat :: p / 128 < |words| ==> !PageBit(words, p)
    ensures CountTo(words, n) == 0
  {
    if n > 0 { ZeroCount(words, n - 1); }
  }
}
