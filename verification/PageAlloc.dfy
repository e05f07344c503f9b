/** The virtual page allocator: the same buddy machine over queues of block addresses. */
module PageAlloc {
  import opened Bits
  import opened Buddy
  import opened BuddyRuns
  import opened FreeLists

  const PAGEALLOC_START: nat := 0xFFFF_9000_0000_0000

  /** The first index of `x`, if it occurs. */
  method Position(s: seq<nat>, x: nat) returns (r: Option<nat>)
    ensures r.None? <==> x !in s
    ensures r.Some? ==> r.value < |s| && s[r.value] == x
  {
    for i := 0 to |s|
      invariant x !in s[..i]
    {
      if s[i] == x {
        return Some(i);
      }
    }
    return None;
  }

  class PageAllocator {
    const heapStart: nat
    const heapEnd: nat
    const levels: nat
    var freeLists: seq<seq<nat>>
    ghost var free: set<Block>
    /** Blocks handed out, and those in transit inside an operation. */
    ghost var live: set<Block>

    ghost function Geo(): Geometry {
      Geometry(heapStart, heapStart, 12, levels)
    }

    ghost function Abs(): State
      reads this
    {
      State(free, live)
    }

    ghost predicate Static() {
      && levels >= 1 && heapEnd >= heapStart > 0 && heapEnd - heapStart == Size(Geo(), 0)
    }

    ghost predicate Valid()
      reads this
    {
      && Static()
      && |freeLists| == levels
      && (forall l {:trigger NoDup(freeLists[l])} :: 0 <= l < levels ==> NoDup(freeLists[l]))
      && free == BlocksOf(freeLists)
      && Inv(Geo(), Abs())
    }

    constructor (virtStart: nat, virtEnd: nat, levels: nat)
      requires levels >= 1 && virtStart > 0
      requires virtStart % 4096 == 0 && virtEnd % 4096 == 0
      requires virtEnd == virtStart + Pow2(levels - 1) * 4096
      ensures Valid() && Abs() == Init(Geo())
      ensures heapStart == virtStart && heapEnd == virtEnd && this.levels == levels
    {
      heapStart := virtStart;
      heapEnd := virtEnd;
      this.levels := levels;
      freeLists := seq(levels, i => if i == 0 then [virtStart] else []);
      free, live := {Block(0, virtStart)}, {};
      new;
      Pow2Sum(12, levels - 1);
      PageBits();
      InitInv(Geo());
      assert free == BlocksOf(freeLists) by {
        forall b ensures b in BlocksOf(freeLists) <==> b in free { InBlocks(freeLists, b); }
      }
    }

    /** The block size of a level, by shifting the region size right. */
    method BlockSize(level: nat) returns (n: nat)
      requires Static() && level < levels
      ensures n == Size(Geo(), level)
    {
      ShrPow2(12 + levels - 1, level);
      n := Shr(heapEnd - heapStart, level);
    }

    /** Exclusive or of the offset from the region start with the block size. */
    method BuddyAddress(level: nat, ptr: nat) returns (buddy: nat)
      requires Static() && level < levels && ptr >= heapStart
      ensures Block(level, buddy) == BuddyOf(Geo(), Block(level, ptr))
    {
      var blockSize := BlockSize(level);
      BuddyIsXor(Geo(), Block(level, ptr));
      var offset := ptr - heapStart;
      var buddyOffset := Xor(offset, blockSize);
      buddy := heapStart + buddyOffset;
    }

    method PopFront(level: nat) returns (r: Option<nat>)
      requires Valid() && level < levels
      modifies this
      ensures Valid()
      ensures r.None? ==> unchanged(this) && LevelEmpty(free, level)
      ensures r.Some? ==> var b := Block(level, r.value);
        b in old(free) && free == old(free) - {b} && live == old(live) + {b}
      ensures r.Some? ==> level < |old(freeLists)| && old(freeLists)[level] == [r.value] + freeLists[level]
      ensures r.Some? ==> freeLists == old(freeLists)[level := freeLists[level]]
    {
      EmptyLevel(freeLists, level);
      if freeLists[level] == [] {
        return None;
      }
      var p := freeLists[level][0];
      ghost var b := Block(level, p);
      var rest := freeLists[level][1..];
      assert NoDup(freeLists[level]);
      TailMembers(freeLists[level]);
      RemovedBlock(freeLists, level, rest, p);
      InBlocks(freeLists, b);
      GrabInv(Geo(), Abs(), b);
      freeLists := freeLists[level := rest];
      free, live := free - {b}, live + {b};
      r := Some(p);
    }

    method PushBack(level: nat, ptr: nat)
      requires Valid() && Block(level, ptr) in live
      requires level == 0 || BuddyOf(Geo(), Block(level, ptr)) !in free
      modifies this
      ensures Valid()
      ensures free == old(free) + {Block(level, ptr)} && live == old(live) - {Block(level, ptr)}
      ensures level < |old(freeLists)| && freeLists == old(freeLists)[level := old(freeLists)[level] + [ptr]]
    {
      ghost var b := Block(level, ptr);
      assert Fits(Geo(), b);
      InBlocks(freeLists, b);
      assert NoDup(freeLists[level]);
      ReleaseInv(Geo(), Abs(), b);
      var chain := freeLists[level] + [ptr];
      AddedBlock(freeLists, level, chain, ptr);
      freeLists := freeLists[level := chain];
      free, live := free + {b}, live - {b};
    }

    method RemovePosition(level: nat, pos: nat)
      requires Valid() && level < levels && pos < |freeLists[level]|
      modifies this
      ensures Valid()
      ensures var b := Block(level, old(freeLists[level][pos]));
        b in old(free) && free == old(free) - {b} && live == old(live) + {b}
      ensures pos < |old(freeLists)[level]| && |freeLists| == levels
      ensures freeLists == old(freeLists)[level := Without(old(freeLists)[level], pos)]
    {
      var p := freeLists[level][pos];
      ghost var b := Block(level, p);
      InBlocks(freeLists, b);
      assert NoDup(freeLists[level]);
      WithoutMembers(freeLists[level], pos);
      RemovedBlock(freeLists, level, Without(freeLists[level], pos), p);
      GrabInv(Geo(), Abs(), b);
      freeLists := freeLists[level := Without(freeLists[level], pos)];
      free, live := free - {b}, live + {b};
    }

    /** Takes a block of `level`, splitting the smallest larger free block if it must. */
    method GetFreeBlock(level: nat) returns (r: Option<nat>, ghost donor: nat)
      requires Valid() && level < levels
      modifies this
      ensures Valid()
      ensures r.None? ==> Step(Geo(), old(Abs()), Exhausted(level), Abs()) && unchanged(this)
      ensures r.Some? ==> Step(Geo(), old(Abs()), Event.Alloc(level, donor, r.value), Abs())
      ensures r.Some? ==> Drawn(old(freeLists), freeLists, donor, level, r.value)
      decreases level, 1
    {
      donor := level;
      r := PopFront(level);
      if r.None? {
        r, donor := SplitLevel(level);
      } else {
        assert Remainders(Geo(), r.value, level, level) == {};
      }
    }

    method SplitLevel(level: nat) returns (r: Option<nat>, ghost donor: nat)
      requires Valid() && level < levels && LevelEmpty(free, level)
      modifies this
      ensures Valid()
      ensures r.None? ==> Step(Geo(), old(Abs()), Exhausted(level), Abs()) && unchanged(this)
      ensures r.Some? ==> Step(Geo(), old(Abs()), Event.Alloc(level, donor, r.value), Abs())
      ensures r.Some? ==> Drawn(old(freeLists), freeLists, donor, level, r.value)
      decreases level, 0
    {
      if level == 0 {
        return None, 0;
      }
      r, donor := GetFreeBlock(level - 1);
      if r.Some? {
        SplitStep(Geo(), old(Abs()), donor, level, r.value, Abs());
        PushRightHalf(level, r.value);
      }
    }

    /** Halves the block in transit and queues its right half. */
    method PushRightHalf(level: nat, ptr: nat)
      requires Valid() && 0 < level < levels && Block(level - 1, ptr) in live
      requires LevelEmpty(free, level)
      modifies this
      ensures Valid()
      ensures var b := Block(level - 1, ptr);
        Abs() == State(old(free) + {RightHalf(Geo(), b)}, old(live) - {b} + {LeftHalf(b)})
      ensures level < |old(freeLists)| == |freeLists| && old(freeLists)[level] == [] && |freeLists[level]| == 1
      ensures freeLists == old(freeLists)[level := freeLists[level]]
    {
      ghost var b := Block(level - 1, ptr);
      EmptyLevel(freeLists, level);
      HalveInv(Geo(), Abs(), b);
      live := live - {b} + {LeftHalf(b), RightHalf(Geo(), b)};
      var blockSize := BlockSize(level);
      var buddy := ptr + blockSize;
      PushBack(level, buddy);
      assert live == old(live) - {b} + {LeftHalf(b)};
    }

    /** Returns a block, merging it with its buddy as long as the buddy is queued. */
    method MergeBuddies(level: nat, ptr: nat)
      requires Valid() && Block(level, ptr) in live
      modifies this
      ensures Valid()
      ensures Step(Geo(), old(Abs()), Free(Block(level, ptr)), Abs())
      ensures Refiled(old(freeLists), freeLists, MergedAt(Geo(), old(free), Block(level, ptr)), level, false)
      decreases level, 1
    {
      ghost var b := Block(level, ptr);
      assert Fits(Geo(), b);
      if level == 0 {
        PushBack(level, ptr);
        return;
      }
      var buddy := BuddyAddress(level, ptr);
      InBlocks(freeLists, Block(level, buddy));
      var pos := Position(freeLists[level], buddy);
      if pos.Some? {
        MergeUpwards(level, ptr, buddy, pos.value);
      } else {
        PushBack(level, ptr);
      }
    }

    /** Takes the buddy, found at `pos`, off its queue and returns the parent of the two. */
    method MergeUpwards(level: nat, ptr: nat, buddy: nat, pos: nat)
      requires Valid() && 0 < level < levels && Block(level, ptr) in live
      requires BuddyOf(Geo(), Block(level, ptr)) == Block(level, buddy)
      requires pos < |freeLists[level]| && freeLists[level][pos] == buddy
      modifies this
      ensures Valid()
      ensures Step(Geo(), old(Abs()), Free(Block(level, ptr)), Abs())
      ensures Refiled(old(freeLists), freeLists, MergedAt(Geo(), old(free), Block(level, ptr)), level, false)
      decreases level, 0
    {
      ghost var b := Block(level, ptr);
      RemovePosition(level, pos);
      var merged := FuseLive(level, ptr, buddy);
      ghost var s, mid := Abs(), freeLists;
      MergeBuddies(level - 1, merged);
      MergeUnfolds(Geo(), old(Abs()), b, s, Abs());
      RefiledUpwards(Geo(), old(free), b, old(freeLists), mid, freeLists, false);
    }

    /** Two buddies in transit become their parent. */
    method FuseLive(level: nat, ptr: nat, buddy: nat) returns (merged: nat)
      requires Valid() && level > 0 && Block(level, ptr) in live && Block(level, buddy) in live
      requires BuddyOf(Geo(), Block(level, ptr)) == Block(level, buddy)
      modifies this`live
      ensures Valid()
      ensures Parent(Geo(), Block(level, ptr)) == Block(level - 1, merged)
      ensures Block(level - 1, merged) !in old(live)
      ensures live == old(live) - {Block(level, ptr), Block(level, buddy)} + {Block(level - 1, merged)}
    {
      FuseInv(Geo(), Abs(), Block(level, ptr));
      merged := if buddy < ptr then buddy else ptr;
      live := live - {Block(level, ptr), Block(level, buddy)} + {Block(level - 1, merged)};
    }

    /** Succeeds exactly on block sizes and on sizes below one page: it does not round up. */
    method GetLevelFromSize(size: nat) returns (r: Option<nat>)
      requires Static()
      ensures r.Some? ==> r.value < levels
      ensures forall l: nat :: l < levels ==>
        (r == Some(l) <==> size == Size(Geo(), l) || (l == levels - 1 && size < Size(Geo(), l)))
    {
      var level := 0;
      var blockSize := heapEnd - heapStart;
      while blockSize > size && level + 1 < levels
        invariant 0 <= level < levels && blockSize == Size(Geo(), level)
        invariant forall l :: 0 <= l < level ==> size < Size(Geo(), l)
      {
        SizeHalves(Geo(), level);
        level := level + 1;
        blockSize := blockSize / 2;
      }
      forall l: nat | level < l < levels ensures Size(Geo(), l) < Size(Geo(), level) {
        SizesDecrease(Geo(), level, l);
      }
      if size > blockSize {
        return None;
      }
      return Some(level);
    }

    /** Reserves the block for `numPages` pages; `None` stands for the two panics, and happens
        exactly when no free block holds that many pages. The block is the smallest that does. */
    method AllocatePages(numPages: nat) returns (r: Option<nat>, ghost level: nat, ghost donor: nat)
      requires Valid()
      modifies this
      ensures Valid()
      ensures r.Some? <==> exists b :: b in old(free) && numPages * 4096 <= Size(Geo(), b.level)
      ensures r.None? ==> unchanged(this)
      ensures numPages * 4096 <= Size(Geo(), 0) ==>
        && level < levels && numPages * 4096 <= Size(Geo(), level)
        && (level + 1 < levels ==> Size(Geo(), level + 1) < numPages * 4096)
        && Step(Geo(), old(Abs()), if r.None? then Exhausted(level) else Event.Alloc(level, donor, r.value), Abs())
      ensures r.Some? ==> Drawn(old(freeLists), freeLists, donor, level, r.value)
    {
      level, donor := 0, 0;
      var size := NextPow2(numPages * 4096);
      var found := GetLevelFromSize(size);
      FoundIffFits(Geo(), numPages * 4096, found);
      if found.None? {
        NoneHolds(Geo(), Abs(), numPages * 4096, level);
        return None, level, donor;
      }
      level := found.value;
      ExactLevelIsSnug(Geo(), numPages * 4096, level);
      r, donor := GetFreeBlock(found.value);
      if r.Some? {
        DonorHolds(Geo(), old(Abs()), numPages * 4096, level, donor, r.value);
      } else {
        NoneHolds(Geo(), Abs(), numPages * 4096, level);
      }
    }

    /** Gives back the block reserved for the same number of pages. */
    method DeallocatePages(page: nat, length: nat, ghost level: nat)
      requires Valid() && level < levels && length * 4096 <= Size(Geo(), level)
      requires level + 1 < levels ==> Size(Geo(), level + 1) < length * 4096
      requires Block(level, page) in live
      modifies this
      ensures Valid()
      ensures Step(Geo(), old(Abs()), Free(Block(level, page)), Abs())
      ensures Refiled(old(freeLists), freeLists, MergedAt(Geo(), old(free), Block(level, page)), level, false)
    {
      var size := NextPow2(length * 4096);
      var found := GetLevelFromSize(size);
      SnugIsExactLevel(Geo(), length * 4096, level);
      assert found == Some(level);
      MergeBuddies(found.value, page);
    }
  }

  /** The search succeeds on the rounded size exactly if the request fits the region. */
  lemma {:induction false} FoundIffFits(g: Geometry, n: nat, found: Option<nat>)
    requires g.levels >= 1 && (found.Some? ==> found.value < g.levels)
    requires forall l: nat :: l < g.levels ==> (found == Some(l) <==> ExactLevel(g, NextPow2(n), l))
    ensures found.Some? <==> n <= Size(g, 0)
    ensures found.Some? ==> ExactLevel(g, NextPow2(n), found.value)
  {
    RoundedFits(g, n, 0);
    if n <= Size(g, 0) {
      NextPow2IsPow2(n);
      var l := PowerHasLevel(g, NextPow2(n));
    } else if found.Some? {
      SizeDivides(g, 0, found.value);
    }
  }

  lemma {:induction false} NoneHolds(g: Geometry, s: State, n: nat, level: nat)
    requires Inv(g, s) && level < g.levels
    requires n > Size(g, 0) || ((level + 1 < g.levels ==> Size(g, level + 1) < n) && Step(g, s, Exhausted(level), s))
    ensures !exists b :: b in s.free && n <= Size(g, b.level)
  {
    forall b | b in s.free ensures Size(g, b.level) < n {
      NothingFits(g, s, n, level, b);
    }
  }

  lemma {:induction false} DonorHolds(g: Geometry, s: State, n: nat, level: nat, donor: nat, start: nat)
    requires donor <= level < g.levels && Block(donor, start) in s.free && n <= Size(g, level)
    ensures exists b :: b in s.free && n <= Size(g, b.level)
  {
    SizeDivides(g, donor, level);
    assert n <= Size(g, Block(donor, start).level);
  }

  lemma {:induction false} PageBits()
    ensures Pow2(12) == 4096
  {
    assert Pow2(6) == 64;
    Pow2Sum(6, 6);
  }

  /** The least power of two not below the installed memory or one page. */
  method RegionSize(availableRam: nat) returns (size: nat, ghost k: nat)
    ensures k >= 12 && size == Pow2(k)
    ensures size == if availableRam <= 4096 then 4096 else NextPow2(availableRam)
  {
    PageBits();
    size := 4096;
    k := 12;
    while size < availableRam
      invariant size == Pow2(k) && k >= 12
      invariant size == 4096 || 4096 < availableRam
      invariant k > 12 ==> Pow2(k - 1) < availableRam
      decreases availableRam - size
    {
      size := size * 2;
      k := k + 1;
    }
    if availableRam > 4096 {
      NextPow2IsLeast(availableRam, k);
      NextPow2IsPow2(availableRam);
      Pow2Order(k - 1, Log2(NextPow2(availableRam)));
      Pow2Order(k, Log2(NextPow2(availableRam)));
    }
  }

  /** Sizes the region and gives it the number of levels that the constructor insists on. */
  method InitPageAllocator(availableRam: nat) returns (a: PageAllocator)
    ensures fresh(a) && a.Valid() && a.Abs() == Init(a.Geo())
    ensures a.heapStart == PAGEALLOC_START
    ensures a.heapEnd - a.heapStart == if availableRam <= 4096 then 4096 else NextPow2(availableRam)
  {
    var size;
    ghost var k;
    size, k := RegionSize(availableRam);
    var pageCount := size / 4096;
    LevelsMatch(k);
    var levels := TrailingZeros(NextPow2(pageCount)) + 1;
    a := new PageAllocator(PAGEALLOC_START, PAGEALLOC_START + size, levels);
  }

  lemma {:induction false} LevelsMatch(k: nat)
    requires k >= 12
    ensures Pow2(k) == Pow2(k - 12) * 4096 && Pow2(k) / 4096 == Pow2(k - 12)
    ensures NextPow2(Pow2(k) / 4096) == Pow2(k - 12) && TrailingZeros(Pow2(k - 12)) == k - 12
  {
    PageBits();
    Pow2Sum(k - 12, 12);
    NextPow2Fixed(k - 12);
    TrailingZerosPow2(k - 12);
  }

  lemma {:induction false} NextPow2Fixed(k: nat)
    ensures NextPow2(Pow2(k)) == Pow2(k)
  {
    NextPow2IsLeast(Pow2(k), k);
  }
}
