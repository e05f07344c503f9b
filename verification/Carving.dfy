/** Cutting the memory map into regions for frame allocators. */
module Carving {
  import opened Bits
  import opened Buddy
  import opened FreeLists
  import opened NodeTags
  import opened FrameAlloc

  datatype Region = Region(usable: bool, base: nat, length: nat)

  /** One allocator to be: its first frame, its size, and the node table of its region. */
  datatype Config = Config(start: nat, frames: nat, bytes: nat, listStart: nat)

  /** The largest power of two not above `n`. */
  function HighBit(n: nat): (p: nat)
    requires n > 0
    ensures p <= n < 2 * p
  {
    if n == 1 then 1 else 2 * HighBit(n / 2)
  }

  lemma {:induction false} HighBitIsPow2(n: nat) returns (k: nat)
    requires n > 0
    ensures HighBit(n) == Pow2(k)
  {
    if n == 1 {
      k := 0;
    } else {
      k := HighBitIsPow2(n / 2);
      k := k + 1;
    }
  }

  function ReservedPages(totalFrames: nat): nat {
    (totalFrames * 32 + 4095) / 4096
  }

  /** The chunks that carving takes from `remaining` frames at `start`. */
  function Chunks(start: nat, remaining: nat, min: nat, listStart: nat): seq<Config>
    requires min >= 1
    decreases remaining
  {
    if remaining < min then []
    else
      var f := HighBit(remaining);
      [Config(start, f, f * 4096, listStart)] + Chunks(start + f * 4096, remaining - f, min, listStart)
  }

  function RegionChunks(r: Region, min: nat, hddm: nat): seq<Config>
    requires min >= 1
  {
    var total := r.length / 4096;
    var reserved := ReservedPages(total);
    if !r.usable || total < reserved then []
    else Chunks(r.base + reserved * 4096, total - reserved, min, r.base + hddm)
  }

  function AllChunks(rs: seq<Region>, min: nat, hddm: nat): seq<Config>
    requires min >= 1
  {
    if rs == [] then [] else AllChunks(rs[..|rs| - 1], min, hddm) + RegionChunks(rs[|rs| - 1], min, hddm)
  }

  function SumFrames(cs: seq<Config>): nat {
    if cs == [] then 0 else cs[0].frames + SumFrames(cs[1..])
  }

  /** The frames of a region that carving hands on: those that its table leaves, less the remainder. */
  function Manageable(r: Region, min: nat): nat
    requires min >= 1
  {
    var total := r.length / 4096;
    var left := total - (total * 32 + 4095) / 4096;
    if r.usable then left - left % min else 0
  }

  /** The frames that carving a whole memory map hands on. */
  function SumManageable(rs: seq<Region>, min: nat): nat
    requires min >= 1
  {
    if rs == [] then 0 else Manageable(rs[0], min) + SumManageable(rs[1..], min)
  }

  /** Reserving the node table never underflows, and takes the fewest pages that hold the table. */
  lemma {:induction false} TableFits(total: nat)
    ensures ReservedPages(total) <= total
    ensures total * 32 <= ReservedPages(total) * 4096 < total * 32 + 4096
  {
  }

  predicate InRun(c: Config, start: nat, remaining: nat, min: nat, listStart: nat) {
    && c.bytes == c.frames * 4096 && c.listStart == listStart
    && min <= c.frames <= remaining && IsPow2(c.frames)
    && start <= c.start && c.start + c.bytes <= start + remaining * 4096
    && (c.start - start) % 4096 == 0
  }

  /** Consecutive, disjoint, inside `[start, start + remaining)`, with strictly decreasing sizes. */
  ghost predicate Laid(cs: seq<Config>, start: nat, remaining: nat, min: nat, listStart: nat) {
    && (forall i :: 0 <= i < |cs| ==> InRun(cs[i], start, remaining, min, listStart))
    && (forall i, j :: 0 <= i < j < |cs| ==>
          cs[i].start + cs[i].bytes <= cs[j].start && cs[j].frames < cs[i].frames)
  }

  /** Carving a region loses exactly `remaining mod min` frames. */
  lemma {:induction false} ChunksAreLaid(start: nat, remaining: nat, min: nat, listStart: nat)
    requires min >= 1 && IsPow2(min)
    ensures Laid(Chunks(start, remaining, min, listStart), start, remaining, min, listStart)
    ensures SumFrames(Chunks(start, remaining, min, listStart)) == remaining - remaining % min
    decreases remaining
  {
    var cs := Chunks(start, remaining, min, listStart);
    if remaining < min {
      DivUnique(remaining, min, 0, remaining);
    } else {
      var f := HighBit(remaining);
      var rest := Chunks(start + f * 4096, remaining - f, min, listStart);
      ChunksAreLaid(start + f * 4096, remaining - f, min, listStart);
      HighBitMultiple(remaining, min);
      ModDifference(remaining, f, min);
      assert cs[1..] == rest;
      LaidCons(rest, start, remaining, f, min, listStart);
    }
  }

  lemma {:induction false} LaidCons(rest: seq<Config>, start: nat, remaining: nat, f: nat, min: nat, listStart: nat)
    requires f <= remaining < 2 * f && min <= f && IsPow2(f)
    requires Laid(rest, start + f * 4096, remaining - f, min, listStart)
    ensures Laid([Config(start, f, f * 4096, listStart)] + rest, start, remaining, min, listStart)
  {
    var cs := [Config(start, f, f * 4096, listStart)] + rest;
    forall i | 0 <= i < |cs| ensures InRun(cs[i], start, remaining, min, listStart) {
      if i > 0 { InLaterRun(rest[i - 1], start, remaining, f, min, listStart); }
    }
    forall i, j | 0 <= i < j < |cs|
      ensures cs[i].start + cs[i].bytes <= cs[j].start && cs[j].frames < cs[i].frames
    {
      assert cs[j] == rest[j - 1];
      if i > 0 { assert cs[i] == rest[i - 1]; }
    }
  }

  lemma {:induction false} InLaterRun(c: Config, start: nat, remaining: nat, f: nat, min: nat, listStart: nat)
    requires f <= remaining && InRun(c, start + f * 4096, remaining - f, min, listStart)
    ensures InRun(c, start, remaining, min, listStart)
  {
    assert c.start - start == (c.start - (start + f * 4096)) + f * 4096;
  }

  lemma {:induction false} HighBitMultiple(n: nat, min: nat)
    requires min >= 1 && IsPow2(min) && n >= min
    ensures HighBit(n) >= min && HighBit(n) % min == 0 && IsPow2(HighBit(n))
  {
    var k := HighBitIsPow2(n);
    var m := Log2(min);
    Pow2Order(k + 1, m);
    assert Pow2(k + 1) == 2 * Pow2(k);
    Pow2Order(m, k + 1);
    Pow2Divides(m, k);
    Pow2IsPow2(k);
  }

  ghost predicate HasChunk(cs: seq<Config>, frames: nat) {
    exists i :: 0 <= i < |cs| && cs[i].frames == frames
  }

  lemma {:induction false} HasChunkCons(c: Config, rest: seq<Config>, frames: nat)
    ensures HasChunk([c] + rest, frames) <==> c.frames == frames || HasChunk(rest, frames)
  {
    var cs := [c] + rest;
    if HasChunk(rest, frames) {
      var i :| 0 <= i < |rest| && rest[i].frames == frames;
      assert cs[i + 1].frames == frames;
    }
    if c.frames == frames { assert cs[0].frames == frames; }
  }

  /** Each chunk starts where the one before it ends. */
  lemma {:induction false} ChunksAdjoin(start: nat, remaining: nat, min: nat, listStart: nat, i: nat)
    requires min >= 1 && i + 1 < |Chunks(start, remaining, min, listStart)|
    ensures var cs := Chunks(start, remaining, min, listStart); cs[i + 1].start == cs[i].start + cs[i].bytes
    decreases i
  {
    var f := HighBit(remaining);
    var cs, rest := Chunks(start, remaining, min, listStart), Chunks(start + f * 4096, remaining - f, min, listStart);
    assert cs[i + 1] == rest[i];
    if i > 0 {
      assert cs[i] == rest[i - 1];
      ChunksAdjoin(start + f * 4096, remaining - f, min, listStart, i - 1);
    }
  }

  /** The chunk with which carving uses up its frames divides their number. */
  lemma {:induction false} ChunksDivide(start: nat, remaining: nat, min: nat, listStart: nat, i: nat)
    requires min >= 1 && IsPow2(min) && i < |Chunks(start, remaining, min, listStart)|
    ensures var c := Chunks(start, remaining, min, listStart)[i];
      c.frames > 0 && (c.start + c.bytes == start + remaining * 4096 ==> Multiple(remaining, c.frames))
    decreases remaining
  {
    var f := HighBit(remaining);
    var c := Chunks(start, remaining, min, listStart)[i];
    var k := HighBitIsPow2(remaining);
    if i == 0 {
      MultipleSelf(f);
    } else {
      assert c == Chunks(start + f * 4096, remaining - f, min, listStart)[i - 1];
      ChunksDivide(start + f * 4096, remaining - f, min, listStart, i - 1);
      LaterDivides(start + f * 4096, remaining - f, min, listStart, i - 1, k);
      MultipleSum(remaining - f, f, c.frames);
    }
  }

  lemma {:induction false} LaterDivides(start: nat, remaining: nat, min: nat, listStart: nat, i: nat, k: nat)
    requires min >= 1 && IsPow2(min) && i < |Chunks(start, remaining, min, listStart)| && remaining < Pow2(k)
    ensures var f := Chunks(start, remaining, min, listStart)[i].frames; f > 0 && Multiple(Pow2(k), f)
  {
    ChunksAreLaid(start, remaining, min, listStart);
    var c := Chunks(start, remaining, min, listStart)[i];
    assert InRun(c, start, remaining, min, listStart);
    Pow2Order(k, Log2(c.frames));
    Pow2Divides(Log2(c.frames), k);
  }

  /** The chunk sizes are exactly the bits of the frame count from `min` upwards. */
  lemma {:induction false} ChunksAreHighBits(start: nat, remaining: nat, min: nat, listStart: nat, k: nat)
    requires min >= 1 && IsPow2(min)
    ensures HasChunk(Chunks(start, remaining, min, listStart), Pow2(k)) <==> Pow2(k) >= min && Bit(remaining, k)
    decreases remaining
  {
    if remaining < min {
      if Pow2(k) >= min { HighBitsClear(remaining, k, k); }
    } else {
      var f := HighBit(remaining);
      var t := HighBitIsPow2(remaining);
      HighBitMultiple(remaining, min);
      ChunksAreHighBits(start + f * 4096, remaining - f, min, listStart, k);
      HasChunkCons(Config(start, f, f * 4096, listStart),
                   Chunks(start + f * 4096, remaining - f, min, listStart), Pow2(k));
      TopBit(remaining, t, k);
      Pow2Order(k, t);
      Pow2Order(t, k);
    }
  }

  lemma {:induction false} TopBit(n: nat, t: nat, i: nat)
    requires Pow2(t) <= n < Pow2(t + 1)
    ensures Bit(n, i) <==> i == t || Bit(n - Pow2(t), i)
  {
    if t == 0 {
      if i > 0 { BitOfZero(i - 1); }
      BitOfZero(i);
    } else if i > 0 {
      TopBit(n / 2, t - 1, i - 1);
      assert (n - Pow2(t)) / 2 == n / 2 - Pow2(t - 1);
    }
  }

  /** Every chunk of a region lies inside it, past its node table. */
  lemma {:induction false} RegionIsLaid(r: Region, min: nat, hddm: nat)
    requires r.usable && min >= 1 && IsPow2(min)
    ensures var total := r.length / 4096; var reserved := ReservedPages(total);
      && reserved <= total
      && Laid(RegionChunks(r, min, hddm), r.base + reserved * 4096, total - reserved, min, r.base + hddm)
      && SumFrames(RegionChunks(r, min, hddm)) == (total - reserved) - (total - reserved) % min
      && r.base + reserved * 4096 + (total - reserved) * 4096 <= r.base + r.length
  {
    var total := r.length / 4096;
    TableFits(total);
    ChunksAreLaid(r.base + ReservedPages(total) * 4096, total - ReservedPages(total), min, r.base + hddm);
  }

  /** Whenever a usable region is large enough to carve, its first allocator starts at a node index
      strictly between zero and its frame count, so its span is not aligned. */
  lemma {:induction false} FirstChunkIsMisaligned(r: Region, min: nat, hddm: nat)
    requires r.usable && min >= 2 && IsPow2(min) && RegionChunks(r, min, hddm) != []
    ensures var c := RegionChunks(r, min, hddm)[0];
      && c.start + hddm >= c.listStart
      && 0 < (c.start + hddm - c.listStart) / 4096 < c.frames
      && !Aligned(SpanOf(TrailingZeros(c.frames) + 1, c.start + hddm, c.listStart))
  {
    var c := RegionChunks(r, min, hddm)[0];
    var total := r.length / 4096;
    var index := ReservedPages(total);
    IndexBelowFrames(total);
    var k := HighBitIsPow2(total - index);
    TrailingZerosPow2(k);
    SpanAtIndex(k + 1, c.start + hddm, c.listStart, index);
    MisalignedIndex(c.listStart, index, k);
  }

  lemma {:induction false} SpanAtIndex(levels: nat, start: nat, listStart: nat, index: nat)
    requires start == listStart + index * 4096
    ensures SpanOf(levels, start, listStart) == Geometry(listStart, index * 32 + listStart, 5, levels)
    ensures (start - listStart) / 4096 == index
  {
  }

  lemma {:induction false} IndexBelowFrames(total: nat)
    requires total - ReservedPages(total) >= 2
    ensures 0 < ReservedPages(total) < HighBit(total - ReservedPages(total))
  {
  }

  lemma {:induction false} MisalignedIndex(listStart: nat, index: nat, k: nat)
    requires 0 < index < Pow2(k)
    ensures !Aligned(Geometry(listStart, index * 32 + listStart, 5, k + 1))
  {
    var g := Geometry(listStart, index * 32 + listStart, 5, k + 1);
    PagesScale(g, 0);
    MultipleIsMod(index * 32, Size(g, 0));
    DivUnique(index * 32, Size(g, 0), 0, index * 32);
  }

  method LargestPowerOfTwo(remaining: nat) returns (f: nat)
    requires remaining > 0
    ensures f == HighBit(remaining)
  {
    f := 1;
    ghost var k: nat := 0;
    while f * 2 <= remaining
      invariant f == Pow2(k) && f <= remaining
      decreases remaining - f
    {
      f := f * 2;
      k := k + 1;
    }
    var t := HighBitIsPow2(remaining);
    assert Pow2(k + 1) == 2 * f && Pow2(t + 1) == 2 * Pow2(t);
    Pow2Order(k, t + 1);
    Pow2Order(t, k + 1);
  }

  lemma {:induction false} CarvedOne(done: seq<Config>, start: nat, remaining: nat, min: nat, listStart: nat)
    requires remaining >= min >= 1
    ensures var f := HighBit(remaining);
      done + Chunks(start, remaining, min, listStart) ==
      (done + [Config(start, f, f * 4096, listStart)]) + Chunks(start + f * 4096, remaining - f, min, listStart)
  {
  }

  /** Carves one region after those already carved; `None` when the capacity runs out. */
  method CarveRegion(region: Region, min: nat, hddm: nat, done: seq<Config>, capacity: nat)
    returns (r: Option<seq<Config>>)
    requires min >= 2 && IsPow2(min) && |done| <= capacity
    ensures r.Some? <==> |done + RegionChunks(region, min, hddm)| <= capacity
    ensures r.Some? ==> r.value == done + RegionChunks(region, min, hddm)
  {
    var configs := done;
    if region.usable {
      var totalFrames := region.length / 4096;
      var reserved := (totalFrames * 32 + 4095) / 4096 * 4096;
      TableFits(totalFrames);
      var currentStart: nat := region.base + reserved;
      var remaining: nat := totalFrames - reserved / 4096;
      ghost var all := done + RegionChunks(region, min, hddm);
      while remaining >= min
        invariant |configs| <= capacity
        invariant all == configs + Chunks(currentStart, remaining, min, region.base + hddm)
        decreases remaining
      {
        if |configs| >= capacity {
          return None;
        }
        var frames := LargestPowerOfTwo(remaining);
        var bytes := frames * 4096;
        CarvedOne(configs, currentStart, remaining, min, region.base + hddm);
        configs := configs + [Config(currentStart, frames, bytes, region.base + hddm)];
        currentStart := currentStart + bytes;
        remaining := remaining - frames;
      }
    }
    r := Some(configs);
  }

  // ---- every region is carved ----

  /** Every region is carved: no chunk of any of them is left out. */
  lemma {:induction false} EveryRegionCarved(rs: seq<Region>, min: nat, hddm: nat, n: nat, c: Config)
    requires min >= 1 && n < |rs| && c in RegionChunks(rs[n], min, hddm)
    ensures c in AllChunks(rs, min, hddm)
    decreases |rs|
  {
    if n < |rs| - 1 {
      EveryRegionCarved(rs[..|rs| - 1], min, hddm, n, c);
    }
  }

  /** And nothing else is. */
  lemma {:induction false} OnlyRegionsCarved(rs: seq<Region>, min: nat, hddm: nat, c: Config) returns (n: nat)
    requires min >= 1 && c in AllChunks(rs, min, hddm)
    ensures n < |rs| && c in RegionChunks(rs[n], min, hddm)
    decreases |rs|
  {
    n := |rs| - 1;
    if c !in RegionChunks(rs[n], min, hddm) {
      n := OnlyRegionsCarved(rs[..|rs| - 1], min, hddm, c);
    }
  }

  /** A chunk is carved from the whole map exactly if it is carved from one of its regions. */
  lemma {:induction false} CarvedSomewhere(rs: seq<Region>, min: nat, hddm: nat, c: Config)
    requires min >= 1
    ensures c in AllChunks(rs, min, hddm) <==> exists n :: 0 <= n < |rs| && c in RegionChunks(rs[n], min, hddm)
  {
    if c in AllChunks(rs, min, hddm) {
      var n := OnlyRegionsCarved(rs, min, hddm, c);
    }
    if n :| 0 <= n < |rs| && c in RegionChunks(rs[n], min, hddm) {
      EveryRegionCarved(rs, min, hddm, n, c);
    }
  }

  lemma {:induction false} SumConcat(cs: seq<Config>, ds: seq<Config>)
    ensures SumFrames(cs + ds) == SumFrames(cs) + SumFrames(ds)
  {
    if cs == [] {
      assert cs + ds == ds;
    } else {
      SumConcat(cs[1..], ds);
      assert (cs + ds)[1..] == cs[1..] + ds;
    }
  }

  lemma {:induction false} ManageableLast(rs: seq<Region>, r: Region, min: nat)
    requires min >= 1
    ensures SumManageable(rs + [r], min) == SumManageable(rs, min) + Manageable(r, min)
  {
    if rs == [] {
      assert rs + [r] == [r];
    } else {
      assert (rs + [r])[1..] == rs[1..] + [r];
      ManageableLast(rs[1..], r, min);
    }
  }

  lemma {:induction false} RegionSum(r: Region, min: nat, hddm: nat)
    requires min >= 1 && IsPow2(min)
    ensures SumFrames(RegionChunks(r, min, hddm)) == Manageable(r, min)
  {
    if r.usable { RegionIsLaid(r, min, hddm); }
  }

  /** No frame of any region is lost but the tables and the remainders. */
  lemma {:induction false} AllChunksSum(rs: seq<Region>, min: nat, hddm: nat)
    requires min >= 1 && IsPow2(min)
    ensures SumFrames(AllChunks(rs, min, hddm)) == SumManageable(rs, min)
    decreases |rs|
  {
    if rs != [] {
      var init, last := rs[..|rs| - 1], rs[|rs| - 1];
      assert rs == init + [last];
      AllChunksSum(init, min, hddm);
      SumConcat(AllChunks(init, min, hddm), RegionChunks(last, min, hddm));
      RegionSum(last, min, hddm);
      ManageableLast(init, last, min);
    }
  }

  lemma {:induction false} CancelFirst(cs: seq<Config>, ds: seq<Config>, k: nat)
    requires cs != [] && k < |ds| && cs[0] == ds[k] && multiset(cs) == multiset(ds)
    ensures multiset(cs[1..]) == multiset(ds[..k] + ds[k + 1..])
  {
    assert cs == [cs[0]] + cs[1..];
    assert ds == ds[..k] + [ds[k]] + ds[k + 1..];
    assert multiset(cs) == multiset{cs[0]} + multiset(cs[1..]);
    assert multiset(cs[1..]) == multiset(cs) - multiset{cs[0]};
    var rest := ds[..k] + ds[k + 1..];
    assert multiset(ds) == multiset{ds[k]} + multiset(rest);
    assert multiset(rest) == multiset(ds) - multiset{ds[k]};
  }

  /** The sum does not depend on the order. */
  lemma {:induction false} SumReordered(cs: seq<Config>, ds: seq<Config>)
    requires multiset(cs) == multiset(ds)
    ensures SumFrames(cs) == SumFrames(ds)
  {
    if cs != [] {
      assert cs[0] in multiset(ds);
      var k :| 0 <= k < |ds| && ds[k] == cs[0];
      CancelFirst(cs, ds, k);
      SumReordered(cs[1..], ds[..k] + ds[k + 1..]);
      SumConcat(ds[..k], ds[k + 1..]);
      SumConcat(ds[..k], ds[k..]);
      assert ds == ds[..k] + ds[k..] && ds[k..][1..] == ds[k + 1..];
    } else {
      assert |multiset(ds)| == 0;
    }
  }

  /** Carves every usable region in turn: all of them and nothing else. `None` stands for the panic when
      `capacity` allocators are not enough. */
  method CarveRegions(regions: seq<Region>, min: nat, hddm: nat, capacity: nat) returns (r: Option<seq<Config>>)
    requires min >= 2 && IsPow2(min)
    ensures r.Some? <==> |AllChunks(regions, min, hddm)| <= capacity
    ensures r.Some? ==> r.value == AllChunks(regions, min, hddm)
    ensures r.Some? ==> forall c :: c in r.value <==>
      exists n :: 0 <= n < |regions| && c in RegionChunks(regions[n], min, hddm)
    ensures r.Some? ==> SumFrames(r.value) == SumManageable(regions, min)
  {
    var configs: seq<Config> := [];
    for n := 0 to |regions|
      invariant configs == AllChunks(regions[..n], min, hddm)
      invariant |configs| <= capacity
    {
      assert regions[..n + 1][..n] == regions[..n];
      PrefixLength(regions, n + 1, min, hddm);
      var next := CarveRegion(regions[n], min, hddm, configs, capacity);
      if next.None? {
        return None;
      }
      configs := next.value;
    }
    assert regions[..|regions|] == regions;
    forall c { CarvedSomewhere(regions, min, hddm, c); }
    AllChunksSum(regions, min, hddm);
    r := Some(configs);
  }

  lemma {:induction false} PrefixLength(rs: seq<Region>, n: nat, min: nat, hddm: nat)
    requires min >= 1 && n <= |rs|
    ensures |AllChunks(rs[..n], min, hddm)| <= |AllChunks(rs, min, hddm)|
    decreases |rs| - n
  {
    if n == |rs| {
      assert rs[..n] == rs;
    } else {
      PrefixLength(rs, n + 1, min, hddm);
      assert rs[..n + 1][..n] == rs[..n];
    }
  }

  ghost predicate Descending(cs: seq<Config>) {
    forall i, j :: 0 <= i < j < |cs| ==> cs[i].frames >= cs[j].frames
  }

  function InsertByFrames(s: seq<Config>, c: Config): seq<Config> {
    if s == [] || c.frames > s[0].frames then [c] + s else [s[0]] + InsertByFrames(s[1..], c)
  }

  lemma {:induction false} InsertedMembers(s: seq<Config>, c: Config)
    ensures multiset(InsertByFrames(s, c)) == multiset(s) + multiset{c}
  {
    if s != [] && c.frames <= s[0].frames {
      InsertedMembers(s[1..], c);
      assert s == [s[0]] + s[1..];
    }
  }

  lemma {:induction false} InsertedInOrder(s: seq<Config>, c: Config)
    requires Descending(s)
    ensures Descending(InsertByFrames(s, c))
  {
    if s != [] && c.frames <= s[0].frames {
      InsertedInOrder(s[1..], c);
      var t := InsertByFrames(s[1..], c);
      InsertedMembers(s[1..], c);
      forall j | 0 <= j < |t| ensures s[0].frames >= t[j].frames {
        assert t[j] in multiset(t);
        assert t[j] == c || t[j] in s[1..];
      }
    }
  }

  /** Largest first, as the source's unstable sort orders them; equal sizes may come either way. */
  method SortByFrames(configs: seq<Config>) returns (sorted: seq<Config>)
    ensures multiset(sorted) == multiset(configs) && Descending(sorted)
  {
    sorted := [];
    for n := 0 to |configs|
      invariant multiset(sorted) == multiset(configs[..n]) && Descending(sorted)
    {
      assert configs[..n + 1] == configs[..n] + [configs[n]];
      InsertedInOrder(sorted, configs[n]);
      InsertedMembers(sorted, configs[n]);
      sorted := InsertByFrames(sorted, configs[n]);
    }
    assert configs[..|configs|] == configs;
  }

  // ---- all regions together ----

  ghost predicate Separate(rs: seq<Region>) {
    && (forall i :: 0 <= i < |rs| && rs[i].usable ==> rs[i].base % 4096 == 0)
    && (forall i, j :: 0 <= i < j < |rs| && rs[i].usable && rs[j].usable ==>
          rs[i].base + rs[i].length <= rs[j].base || rs[j].base + rs[j].length <= rs[i].base)
  }

  /** What `init` relies on: an aligned power-of-two chunk inside region `i`, past its node table. */
  ghost predicate Belongs(c: Config, r: Region, hddm: nat) {
    && r.usable && c.listStart == r.base + hddm
    && c.bytes == c.frames * 4096 && IsPow2(c.frames) && c.frames >= 2
    && c.start >= r.base + r.length / 4096 * 32 && c.start + c.bytes <= r.base + r.length
    && (c.start - r.base) % 4096 == 0 && LastDivides(c, r)
  }

  /** A chunk that ends with the last whole frame of the region divides what the table left. */
  predicate LastDivides(c: Config, r: Region) {
    var total := r.length / 4096;
    c.start + c.bytes == r.base + total * 4096 && c.frames > 0 && ReservedPages(total) <= total ==>
      Multiple(total - ReservedPages(total), c.frames)
  }

  predicate DisjointChunks(c: Config, d: Config) {
    c.start + c.bytes <= d.start || d.start + d.bytes <= c.start
  }

  ghost predicate InSome(c: Config, rs: seq<Region>, hddm: nat) {
    exists n :: 0 <= n < |rs| && Belongs(c, rs[n], hddm)
  }

  ghost predicate WellCarved(cs: seq<Config>, rs: seq<Region>, hddm: nat) {
    && (forall i :: 0 <= i < |cs| ==> InSome(cs[i], rs, hddm))
    && (forall i, j :: 0 <= i < j < |cs| ==> DisjointChunks(cs[i], cs[j]))
  }

  /** For every memory map, all chunks of all regions are disjoint and each lies in its region. */
  lemma {:induction false} AllChunksWellCarved(rs: seq<Region>, min: nat, hddm: nat)
    requires min >= 2 && IsPow2(min) && Separate(rs)
    ensures WellCarved(AllChunks(rs, min, hddm), rs, hddm)
    decreases |rs|
  {
    if rs != [] {
      var n := |rs| - 1;
      AllChunksWellCarved(rs[..n], min, hddm);
      forall i | 0 <= i < |RegionChunks(rs[n], min, hddm)|
        ensures Belongs(RegionChunks(rs[n], min, hddm)[i], rs[n], hddm)
      {
        RegionBelongs(rs[n], min, hddm, i);
      }
      forall i, j | 0 <= i < j < |RegionChunks(rs[n], min, hddm)|
        ensures DisjointChunks(RegionChunks(rs[n], min, hddm)[i], RegionChunks(rs[n], min, hddm)[j])
      {
        RegionIsLaid(rs[n], min, hddm);
      }
      JoinWellCarved(AllChunks(rs[..n], min, hddm), RegionChunks(rs[n], min, hddm), rs, hddm);
    }
  }

  lemma {:induction false} JoinWellCarved(before: seq<Config>, last: seq<Config>, rs: seq<Region>, hddm: nat)
    requires rs != [] && Separate(rs) && WellCarved(before, rs[..|rs| - 1], hddm)
    requires forall i :: 0 <= i < |last| ==> Belongs(last[i], rs[|rs| - 1], hddm)
    requires forall i, j :: 0 <= i < j < |last| ==> DisjointChunks(last[i], last[j])
    ensures WellCarved(before + last, rs, hddm)
  {
    var n := |rs| - 1;
    var cs := before + last;
    forall i | 0 <= i < |cs| ensures InSome(cs[i], rs, hddm) {
      if i < |before| {
        assert InSome(before[i], rs[..n], hddm);
        var m :| 0 <= m < n && Belongs(before[i], rs[..n][m], hddm);
        assert Belongs(cs[i], rs[m], hddm);
      } else {
        assert Belongs(cs[i], rs[n], hddm);
      }
    }
    forall i, j | 0 <= i < j < |cs| ensures DisjointChunks(cs[i], cs[j]) {
      if j < |before| {
        assert DisjointChunks(before[i], before[j]);
      } else if i < |before| {
        assert InSome(before[i], rs[..n], hddm);
        var m :| 0 <= m < n && Belongs(before[i], rs[..n][m], hddm);
        assert Belongs(last[j - |before|], rs[n], hddm) && rs[..n][m] == rs[m];
      } else {
        assert DisjointChunks(last[i - |before|], last[j - |before|]);
      }
    }
  }

  lemma {:induction false} RegionBelongs(r: Region, min: nat, hddm: nat, i: nat)
    requires min >= 2 && IsPow2(min) && i < |RegionChunks(r, min, hddm)|
    ensures Belongs(RegionChunks(r, min, hddm)[i], r, hddm)
  {
    var total := r.length / 4096;
    RegionIsLaid(r, min, hddm);
    TableFits(total);
    ChunksDivide(r.base + ReservedPages(total) * 4096, total - ReservedPages(total), min, r.base + hddm, i);
    RunBelongs(RegionChunks(r, min, hddm)[i], r, min, hddm, ReservedPages(total));
  }

  lemma {:induction false} RunBelongs(c: Config, r: Region, min: nat, hddm: nat, reserved: nat)
    requires r.usable && min >= 2 && reserved <= r.length / 4096
    requires r.length / 4096 * 32 <= reserved * 4096
    requires InRun(c, r.base + reserved * 4096, r.length / 4096 - reserved, min, r.base + hddm) && LastDivides(c, r)
    ensures Belongs(c, r, hddm)
  {
    assert (c.start - r.base) % 4096 == (c.start - (r.base + reserved * 4096)) % 4096;
  }

  /** The order in which allocators are created does not matter. */
  lemma {:induction false} ReorderWellCarved(cs: seq<Config>, ds: seq<Config>, rs: seq<Region>, hddm: nat)
    requires WellCarved(cs, rs, hddm) && multiset(ds) == multiset(cs)
    ensures WellCarved(ds, rs, hddm)
  {
    forall i | 0 <= i < |ds| ensures InSome(ds[i], rs, hddm) {
      assert ds[i] in multiset(ds);
      var k :| 0 <= k < |cs| && cs[k] == ds[i];
    }
    forall i, j | 0 <= i < j < |ds| ensures DisjointChunks(ds[i], ds[j]) {
      assert ds[i] in multiset(ds) && ds[j] in multiset(ds);
      var k :| 0 <= k < |cs| && cs[k] == ds[i];
      var m :| 0 <= m < |cs| && cs[m] == ds[j];
      if k == m {
        TwiceMeansTwo(ds, i, j);
        OnceMeansOne(cs, rs, hddm, k);
      }
    }
  }

  lemma {:induction false} TwiceMeansTwo(ds: seq<Config>, i: nat, j: nat)
    requires i < j < |ds| && ds[i] == ds[j]
    ensures multiset(ds)[ds[i]] >= 2
  {
    assert ds == ds[..j] + [ds[j]] + ds[j + 1..];
    assert ds[i] in ds[..j];
  }

  lemma {:induction false} OnceMeansOne(cs: seq<Config>, rs: seq<Region>, hddm: nat, k: nat)
    requires WellCarved(cs, rs, hddm) && k < |cs|
    ensures multiset(cs)[cs[k]] == 1
  {
    assert cs == cs[..k] + [cs[k]] + cs[k + 1..];
    forall i | 0 <= i < |cs| && i != k ensures cs[i] != cs[k] {
      assert DisjointChunks(cs[if i < k then i else k], cs[if i < k then k else i]);
      assert InSome(cs[k], rs, hddm);
    }
    assert cs[k] !in cs[..k] && cs[k] !in cs[k + 1..];
  }
}
