/** The kernel heap: a buddy allocator whose free lists are threaded through the free blocks. */
module HeapAlloc {
  import opened Bits
  import opened Buddy
  import opened BuddyRuns
  import opened FreeLists

  const HEAP_START: nat := 0xFFFF_8800_0000_0000
  const HEAP_SIZE: nat := 0x100_0000
  const HEAP_LEVELS: nat := 21
  const HEAP_UNIT_BITS: nat := 4

  /** The kernel's own heap meets what the constructor asks for. */
  lemma {:induction false} HeapGeometry(g: Geometry)
    requires g == Geometry(0, HEAP_START, HEAP_UNIT_BITS, HEAP_LEVELS)
    ensures Sound(g) && Aligned(g) && Size(g, 0) == HEAP_SIZE && Size(g, g.levels - 1) == 16
  {
    HeapPowers();
    MultipleIsMod(g.base, Pow2(g.unitBits));
    MultipleIsMod(g.base, Size(g, 0));
  }

  lemma {:induction false} HeapPowers()
    ensures Pow2(4) == 16 && Pow2(24) == HEAP_SIZE
  {
    assert Pow2(6) == 64;
    Pow2Sum(6, 6);
    Pow2Sum(12, 12);
  }

  /** The block size that serves a layout. */
  function Request(size: nat, align: nat): nat {
    if NextPow2(size) < align then align else NextPow2(size)
  }

  /** `level` holds the smallest blocks of at least `size` bytes. */
  predicate LevelFor(g: Geometry, size: nat, level: nat) {
    && level < g.levels
    && size <= Size(g, level)
    && (level + 1 < g.levels ==> Size(g, level + 1) < size)
  }

  /** A block serves a layout exactly if it has the size and the alignment: the request is the
      least power of two below neither. */
  lemma {:induction false} RequestFits(g: Geometry, size: nat, align: nat, level: nat)
    requires level < g.levels
    ensures Request(size, align) <= Size(g, level) <==> size <= Size(g, level) && align <= Size(g, level)
  {
    RoundedFits(g, size, level);
  }

  lemma {:induction false} RequestIsLeast(size: nat, align: nat, p: nat)
    requires IsPow2(align) && IsPow2(p)
    ensures IsPow2(Request(size, align)) && size <= Request(size, align) && align <= Request(size, align)
    ensures size <= p && align <= p ==> Request(size, align) <= p
  {
    NextPow2IsPow2(size);
    if size <= p { NextPow2IsLeast(size, Log2(p)); }
  }

  /** The level search is a function of the size: freeing finds the level that allocating used. */
  lemma {:induction false} LevelForUnique(g: Geometry, size: nat, l: nat, m: nat)
    requires LevelFor(g, size, l) && LevelFor(g, size, m)
    ensures l == m
  {
    if l < m { SizeDivides(g, l + 1, m); }
    if m < l { SizeDivides(g, m + 1, l); }
  }

  /** The level of the request, in the terms of the layout. */
  lemma {:induction false} LevelForLayout(g: Geometry, size: nat, align: nat, level: nat)
    requires LevelFor(g, Request(size, align), level)
    ensures size <= Size(g, level) && align <= Size(g, level)
    ensures level + 1 < g.levels ==> Size(g, level + 1) < size || Size(g, level + 1) < align
  {
    RequestFits(g, size, align, level);
    if level + 1 < g.levels { RequestFits(g, size, align, level + 1); }
  }

  lemma {:induction false} LayoutLevel(g: Geometry, size: nat, align: nat, level: nat)
    requires level < g.levels && size <= Size(g, level) && align <= Size(g, level)
    requires level + 1 < g.levels ==> Size(g, level + 1) < size || Size(g, level + 1) < align
    ensures LevelFor(g, Request(size, align), level)
  {
    RequestFits(g, size, align, level);
    if level + 1 < g.levels { RequestFits(g, size, align, level + 1); }
  }

  /** A failed request means that no free block has the size and the alignment. */
  lemma {:induction false} NoneServes(g: Geometry, s: State, size: nat, align: nat, level: nat)
    requires Inv(g, s) && level < g.levels
    requires Request(size, align) > Size(g, 0) ||
             (LevelFor(g, Request(size, align), level) && Step(g, s, Exhausted(level), s))
    ensures !exists b :: b in s.free && size <= Size(g, b.level) && align <= Size(g, b.level)
  {
    forall b | b in s.free ensures Size(g, b.level) < size || Size(g, b.level) < align {
      assert Fits(g, b);
      NothingFits(g, s, Request(size, align), level, b);
      RequestFits(g, size, align, b.level);
    }
  }

  lemma {:induction false} DonorServes(
      g: Geometry, s: State, size: nat, align: nat, level: nat, donor: nat, start: nat)
    requires donor <= level < g.levels && Block(donor, start) in s.free
    requires size <= Size(g, level) && align <= Size(g, level)
    ensures exists b :: b in s.free && size <= Size(g, b.level) && align <= Size(g, b.level)
  {
    SizeDivides(g, donor, level);
    assert size <= Size(g, Block(donor, start).level);
  }

  function MaxSize(unitBits: nat, levels: nat): nat
    requires levels >= 1
  {
    Shl(Pow2(unitBits), levels - 1)
  }

  function BlockSize(unitBits: nat, levels: nat, level: nat): nat
    requires levels >= 1
  {
    Shr(MaxSize(unitBits, levels), level)
  }

  /** Shifting the largest size right halves the block once per level. */
  lemma {:induction false} BlockSizeIsSize(g: Geometry, level: nat)
    requires level < g.levels
    ensures BlockSize(g.unitBits, g.levels, level) == Size(g, level)
    ensures MaxSize(g.unitBits, g.levels) == Size(g, 0)
  {
    ShlPow2(g.unitBits, g.levels - 1);
    ShrPow2(g.unitBits + g.levels - 1, level);
  }

  /** The heap's buddy: exclusive or of the whole address with the block size. */
  lemma {:induction false} BuddyByAddress(g: Geometry, b: Block)
    requires g.origin == 0 && b.level < g.levels
    ensures BuddyOf(g, b) == Block(b.level, Xor(b.start, BlockSize(g.unitBits, g.levels, b.level)))
  {
    BlockSizeIsSize(g, b.level);
    BuddyIsXor(g, b);
  }

  /** Every aligned word of the span can be read and written. */
  ghost predicate WordsMapped(g: Geometry, word: map<nat, nat>) {
    forall a :: InSpan(g, a) && a % 8 == 0 ==> a in word
  }

  /** Words outside the span, or inside a block of `keep`, hold what they held. */
  ghost predicate KeepsWords(g: Geometry, keep: set<Block>, w: map<nat, nat>, w': map<nat, nat>) {
    && w'.Keys == w.Keys
    && forall a :: a in w && (InSpan(g, a) ==> Covered(g, keep, a)) ==> w'[a] == w[a]
  }

  /** So no word of a block in `keep` changes, nor any word outside the span. */
  lemma {:induction false} KeptWord(g: Geometry, keep: set<Block>, w: map<nat, nat>, w': map<nat, nat>,
                                    b: Block, a: nat)
    requires KeepsWords(g, keep, w, w') && a in w
    requires (b in keep && Holds(g, b, a)) || !InSpan(g, a)
    ensures a in w' && w'[a] == w[a]
  {
    assert b in keep && Holds(g, b, a) ==> Covered(g, keep, a);
  }

  lemma {:induction false} KeepsWordsTransitive(g: Geometry, keep: set<Block>, more: set<Block>,
                                                w: map<nat, nat>, w': map<nat, nat>, w'': map<nat, nat>)
    requires KeepsWords(g, keep, w, w') && KeepsWords(g, more, w', w'')
    requires keep <= more
    ensures KeepsWords(g, keep, w, w'')
  {
    forall a | Covered(g, keep, a) ensures Covered(g, more, a) {
      var b :| b in keep && Holds(g, b, a);
      assert b in more;
    }
  }

  class HeapAlloc {
    const mem: Memory
    const heapStart: nat
    const unitBits: nat
    const levels: nat
    var lists: seq<FreeList>
    /** The addresses on each list, front first. */
    ghost var chains: seq<seq<nat>>
    ghost var free: set<Block>
    /** Blocks handed out, and those in transit inside an operation. */
    ghost var live: set<Block>

    ghost function Geo(): Geometry {
      Geometry(0, heapStart, unitBits, levels)
    }

    ghost function Abs(): State
      reads this
    {
      State(free, live)
    }

    ghost predicate Static() {
      && Sound(Geo()) && Aligned(Geo()) && unitBits >= 3 && heapStart > 0
    }

    ghost predicate Listed()
      reads this, mem
    {
      && |lists| == levels
      && WordsMapped(Geo(), mem.word)
      && AllLinked(mem.word, lists, chains)
      && free == BlocksOf(chains)
    }

    ghost predicate Valid()
      reads this, mem
    {
      Static() && Listed() && Inv(Geo(), Abs())
    }

    /** The span becomes one free block. Its first word is taken to read as `None`. */
    constructor (mem: Memory, heapStart: nat, unitBits: nat, levels: nat)
      requires Sound(Geometry(0, heapStart, unitBits, levels))
      requires Aligned(Geometry(0, heapStart, unitBits, levels))
      requires unitBits >= 3 && heapStart > 0
      requires WordsMapped(Geometry(0, heapStart, unitBits, levels), mem.word)
      requires heapStart in mem.word && mem.word[heapStart] == NULL
      ensures Valid() && Abs() == Init(Geo()) && this.mem == mem
      ensures Geo() == Geometry(0, heapStart, unitBits, levels)
    {
      this.mem := mem;
      this.heapStart := heapStart;
      this.unitBits := unitBits;
      this.levels := levels;
      lists := seq(levels, i => if i == 0 then FreeList(heapStart, 1) else FreeList(NULL, 0));
      chains := seq(levels, i => if i == 0 then [heapStart] else []);
      free, live := {Block(0, heapStart)}, {};
      new;
      InitInv(Geo());
      assert BlocksOf(chains) == {Top(Geo())} by {
        forall b ensures b in BlocksOf(chains) <==> b == Top(Geo()) { InBlocks(chains, b); }
      }
    }

    /** Exclusive or of the address with the block size. */
    method BuddyAddress(level: nat, ptr: nat) returns (buddy: nat)
      requires level < levels
      ensures Block(level, buddy) == BuddyOf(Geo(), Block(level, ptr))
    {
      BuddyByAddress(Geo(), Block(level, ptr));
      var blockSize := BlockSize(unitBits, levels, level);
      buddy := Xor(ptr, blockSize);
    }

    method PopAt(level: nat) returns (r: Option<nat>)
      requires Valid() && level < levels
      modifies this
      ensures Valid()
      ensures r.None? ==> unchanged(this) && LevelEmpty(free, level)
      ensures r.Some? ==> var b := Block(level, r.value);
        b in old(free) && Abs() == State(old(free) - {b}, old(live) + {b})
      ensures r.Some? ==> level < |old(chains)| && old(chains)[level] == [r.value] + chains[level]
      ensures r.Some? ==> chains == old(chains)[level := chains[level]]
    {
      assert Linked(mem.word, lists[level], chains[level]);
      var list, ptr := lists[level].Pop(mem, chains[level]);
      r := ptr;
      EmptyLevel(chains, level);
      if ptr.Some? {
        InBlocks(chains, Block(level, ptr.value));
        TailMembers(chains[level]);
        TakeOff(mem.word, level, list, ptr.value, chains[level][1..]);
      }
    }

    /** Records that `ptr` has been taken off its list, leaving `rest` on it. */
    method TakeOff(ghost before: map<nat, nat>, level: nat, list: FreeList, ghost ptr: nat, ghost rest: seq<nat>)
      requires Static() && Inv(Geo(), Abs()) && level < levels && Block(level, ptr) in free && free == BlocksOf(chains)
      requires AllLinked(before, lists, chains) && |lists| == levels && Linked(mem.word, list, rest)
      requires forall q :: q in rest <==> q in chains[level] && q != ptr
      requires WordsMapped(Geo(), mem.word)
      requires forall l, p :: 0 <= l < levels && l != level && p in chains[l] && p in before ==>
        p in mem.word && mem.word[p] == before[p]
      modifies this
      ensures Valid()
      ensures Abs() == State(old(free) - {Block(level, ptr)}, old(live) + {Block(level, ptr)})
      ensures chains == old(chains)[level := rest]
    {
      ghost var b := Block(level, ptr);
      RemovedBlock(chains, level, rest, ptr);
      GrabInv(Geo(), Abs(), b);
      Relinked(before, lists, chains, level, mem.word, list, rest);
      lists := lists[level := list];
      chains := chains[level := rest];
      free, live := free - {b}, live + {b};
    }

    method PushAt(level: nat, ptr: nat)
      requires Valid() && Block(level, ptr) in live
      requires level == 0 || BuddyOf(Geo(), Block(level, ptr)) !in free
      modifies this, mem
      ensures Valid()
      ensures Abs() == State(old(free) + {Block(level, ptr)}, old(live) - {Block(level, ptr)})
      ensures level < |old(chains)| && chains == old(chains)[level := [ptr] + old(chains)[level]]
      ensures KeepsWords(Geo(), live, old(mem.word), mem.word)
    {
      ghost var b := Block(level, ptr);
      MissesOthers(Geo(), Abs(), b, live - {b});
      assert Fits(Geo(), b);
      WordMapped(b);
      NotListed(Geo(), Abs(), chains, b);
      ReleaseInv(Geo(), Abs(), b);
      AddedBlock(chains, level, [ptr] + chains[level], ptr);
      assert Linked(mem.word, lists[level], chains[level]);
      var list := lists[level].Push(mem, ptr, chains[level]);
      Relinked(old(mem.word), lists, chains, level, mem.word, list, [ptr] + chains[level]);
      lists := lists[level := list];
      chains := chains[level := [ptr] + chains[level]];
      free, live := free + {b}, live - {b};
    }

    method RemoveAt(level: nat, ptr: nat)
      requires Valid() && Block(level, ptr) in free
      modifies this, mem
      ensures Valid()
      ensures Abs() == State(old(free) - {Block(level, ptr)}, old(live) + {Block(level, ptr)})
      ensures level < |chains| == |old(chains)| && chains == old(chains)[level := chains[level]]
      ensures LosesOne(old(chains)[level], chains[level])
      ensures KeepsWords(Geo(), old(live), old(mem.word), mem.word)
    {
      ghost var b := Block(level, ptr);
      ghost var nodes := chains[level];
      InBlocks(chains, b);
      ListedApart(Geo(), Abs(), chains, level);
      assert Linked(mem.word, lists[level], nodes);
      var list;
      ghost var rest;
      list, rest := lists[level].Remove(mem, ptr, nodes);
      TakeOff(old(mem.word), level, list, ptr, rest);
    }

    lemma {:induction false} WordMapped(b: Block)
      requires Valid() && b in free + live
      ensures b.start in mem.word && b.start > 0
    {
      assert Fits(Geo(), b);
      Pow2Divides(3, unitBits);
      assert Pow2(3) == 8;
      MultipleChain(b.start, 8, Pow2(unitBits));
      MultipleIsMod(b.start, 8);
      assert InSpan(Geo(), b.start);
    }

    /** Takes a block of `level`, splitting the smallest larger free block if it must. */
    method GetFreeBlock(level: nat) returns (r: Option<nat>, ghost donor: nat)
      requires Valid() && level < levels
      modifies this, mem
      ensures Valid()
      ensures r.None? ==> Step(Geo(), old(Abs()), Exhausted(level), Abs()) && unchanged(this, mem)
      ensures r.Some? ==> Step(Geo(), old(Abs()), Event.Alloc(level, donor, r.value), Abs())
      ensures r.Some? ==> Drawn(old(chains), chains, donor, level, r.value)
      ensures KeepsWords(Geo(), old(live), old(mem.word), mem.word)
      decreases level, 1
    {
      donor := level;
      r := PopAt(level);
      if r.None? {
        r, donor := SplitLevel(level);
      } else {
        assert Remainders(Geo(), r.value, level, level) == {};
      }
    }

    method SplitLevel(level: nat) returns (r: Option<nat>, ghost donor: nat)
      requires Valid() && level < levels && LevelEmpty(free, level)
      modifies this, mem
      ensures Valid()
      ensures r.None? ==> Step(Geo(), old(Abs()), Exhausted(level), Abs()) && unchanged(this, mem)
      ensures r.Some? ==> Step(Geo(), old(Abs()), Event.Alloc(level, donor, r.value), Abs())
      ensures r.Some? ==> Drawn(old(chains), chains, donor, level, r.value)
      ensures KeepsWords(Geo(), old(live), old(mem.word), mem.word)
      decreases level, 0
    {
      if level == 0 {
        return None, 0;
      }
      r, donor := GetFreeBlock(level - 1);
      if r.Some? {
        ghost var b := Block(level - 1, r.value);
        SplitStep(Geo(), old(Abs()), donor, level, r.value, Abs());
        ghost var w := mem.word;
        PushRightHalf(level, r.value);
        KeepsWordsTransitive(Geo(), old(live), live, old(mem.word), w, mem.word);
      }
    }

    /** Halves the block in transit and puts its right half on the list of `level`. */
    method PushRightHalf(level: nat, ptr: nat)
      requires Valid() && 0 < level < levels && Block(level - 1, ptr) in live
      requires LevelEmpty(free, level)
      modifies this, mem
      ensures Valid()
      ensures var b := Block(level - 1, ptr);
        Abs() == State(old(free) + {RightHalf(Geo(), b)}, old(live) - {b} + {LeftHalf(b)})
      ensures level < |old(chains)| == |chains| && old(chains)[level] == [] && |chains[level]| == 1
      ensures chains == old(chains)[level := chains[level]]
      ensures KeepsWords(Geo(), live, old(mem.word), mem.word)
    {
      ghost var b := Block(level - 1, ptr);
      EmptyLevel(chains, level);
      assert OnGrid(Geo(), b);
      HalvesAreBuddies(Geo(), b);
      HalveLive(b);
      var buddy := BuddyAddress(level, ptr);
      PushAt(level, buddy);
      assert live == old(live) - {b} + {LeftHalf(b)};
    }

    ghost method HalveLive(b: Block)
      requires Valid() && b in live && b.level + 1 < levels
      modifies this`live
      ensures Valid()
      ensures live == old(live) - {b} + {LeftHalf(b), RightHalf(Geo(), b)}
      ensures RightHalf(Geo(), b) !in old(live) && RightHalf(Geo(), b) != LeftHalf(b)
    {
      HalveInv(Geo(), Abs(), b);
      live := live - {b} + {LeftHalf(b), RightHalf(Geo(), b)};
    }

    ghost method FuseLive(b: Block)
      requires Valid() && b in live && b.level > 0 && BuddyOf(Geo(), b) in live
      modifies this`live
      ensures Valid()
      ensures live == old(live) - {b, BuddyOf(Geo(), b)} + {Parent(Geo(), b)}
      ensures Parent(Geo(), b) !in old(live)
    {
      FuseInv(Geo(), Abs(), b);
      live := live - {b, BuddyOf(Geo(), b)} + {Parent(Geo(), b)};
    }

    /** Returns a block, merging it with its buddy as long as the buddy is free. */
    method MergeBuddies(level: nat, ptr: nat)
      requires Valid() && Block(level, ptr) in live
      modifies this, mem
      ensures Valid()
      ensures Step(Geo(), old(Abs()), Free(Block(level, ptr)), Abs())
      ensures Refiled(old(chains), chains, MergedAt(Geo(), old(free), Block(level, ptr)), level, true)
      ensures KeepsWords(Geo(), live, old(mem.word), mem.word)
      decreases level, 1
    {
      ghost var b := Block(level, ptr);
      assert Fits(Geo(), b);
      if level == 0 {
        PushAt(level, ptr);
        return;
      }
      var buddy, found := FindBuddy(level, ptr);
      if found {
        MergeUpwards(level, ptr, buddy);
      } else {
        PushAt(level, ptr);
      }
    }

    method MergeUpwards(level: nat, ptr: nat, buddy: nat)
      requires Valid() && level > 0 && Block(level, ptr) in live && Block(level, buddy) in free
      requires BuddyOf(Geo(), Block(level, ptr)) == Block(level, buddy)
      modifies this, mem
      ensures Valid()
      ensures Step(Geo(), old(Abs()), Free(Block(level, ptr)), Abs())
      ensures Refiled(old(chains), chains, MergedAt(Geo(), old(free), Block(level, ptr)), level, true)
      ensures KeepsWords(Geo(), live, old(mem.word), mem.word)
      decreases level, 0
    {
      var firstBuddy := RemoveAndFuse(level, ptr, buddy);
      ghost var w, s, mid := mem.word, Abs(), chains;
      MergeBuddies(level - 1, firstBuddy);
      MergeUnfolds(Geo(), old(Abs()), Block(level, ptr), s, Abs());
      RefiledUpwards(Geo(), old(free), Block(level, ptr), old(chains), mid, chains, true);
      KeepsWordsTransitive(Geo(), live, live, old(mem.word), w, mem.word);
    }

    method FindBuddy(level: nat, ptr: nat) returns (buddy: nat, found: bool)
      requires Valid() && level < levels
      ensures Block(level, buddy) == BuddyOf(Geo(), Block(level, ptr))
      ensures found <==> Block(level, buddy) in free
    {
      buddy := BuddyAddress(level, ptr);
      InBlocks(chains, Block(level, buddy));
      assert Linked(mem.word, lists[level], chains[level]);
      found := lists[level].Exists(mem, buddy, chains[level]);
    }

    /** Takes the buddy off its list; the two blocks in transit become their parent. */
    method RemoveAndFuse(level: nat, ptr: nat, buddy: nat) returns (firstBuddy: nat)
      requires Valid() && level > 0 && Block(level, ptr) in live
      requires BuddyOf(Geo(), Block(level, ptr)) == Block(level, buddy)
      requires Block(level, buddy) in free
      modifies this, mem
      ensures Valid()
      ensures free == old(free) - {Block(level, buddy)}
      ensures live == old(live) - {Block(level, ptr)} + {Block(level - 1, firstBuddy)}
      ensures Parent(Geo(), Block(level, ptr)) == Block(level - 1, firstBuddy)
      ensures Block(level - 1, firstBuddy) !in old(live)
      ensures level < |chains| == |old(chains)| && chains == old(chains)[level := chains[level]]
      ensures LosesOne(old(chains)[level], chains[level])
      ensures KeepsWords(Geo(), old(live), old(mem.word), mem.word)
    {
      RemoveAt(level, buddy);
      FuseLive(Block(level, ptr));
      firstBuddy := if buddy < ptr then buddy else ptr;
      assert live == old(live) - {Block(level, ptr)} + {Parent(Geo(), Block(level, ptr))};
    }

    /** The deepest level whose blocks hold `size` bytes, or none if the span is too small. */
    method GetLevelFromSize(size: nat) returns (r: Option<nat>)
      requires Static()
      ensures r.None? <==> size > Size(Geo(), 0)
      ensures r.Some? ==> LevelFor(Geo(), size, r.value)
    {
      BlockSizeIsSize(Geo(), 0);
      if size > MaxSize(unitBits, levels) {
        return None;
      }
      var level := 1;
      while BlockSize(unitBits, levels, level) >= size && level < levels
        invariant 1 <= level <= levels
        invariant size <= Size(Geo(), level - 1)
        decreases levels - level
      {
        BlockSizeIsSize(Geo(), level);
        level := level + 1;
      }
      if level < levels { BlockSizeIsSize(Geo(), level); }
      return Some(level - 1);
    }

    /** Serves a layout from the level that was found for it. */
    method ServeAt(level: nat, size: nat, align: nat) returns (r: Option<nat>, ghost donor: nat)
      requires Valid() && IsPow2(align) && LevelFor(Geo(), Request(size, align), level)
      modifies this, mem
      ensures Valid()
      ensures size <= Size(Geo(), level) && align <= Size(Geo(), level)
      ensures level + 1 < levels ==> Size(Geo(), level + 1) < size || Size(Geo(), level + 1) < align
      ensures r.Some? <==>
        exists b :: b in old(free) && size <= Size(Geo(), b.level) && align <= Size(Geo(), b.level)
      ensures r.None? ==> Step(Geo(), old(Abs()), Exhausted(level), Abs()) && unchanged(this, mem)
      ensures r.Some? ==> Step(Geo(), old(Abs()), Event.Alloc(level, donor, r.value), Abs())
      ensures r.Some? ==> Drawn(old(chains), chains, donor, level, r.value) && Multiple(r.value, align)
      ensures KeepsWords(Geo(), old(live), old(mem.word), mem.word)
    {
      LevelForLayout(Geo(), size, align, level);
      r, donor := GetFreeBlock(level);
      if r.Some? {
        ghost var b := Block(level, r.value);
        assert OnGrid(Geo(), b);
        GridIsAligned(Geo(), b, align);
        DonorServes(Geo(), old(Abs()), size, align, level, donor, r.value);
      } else {
        NoneServes(Geo(), Abs(), size, align, level);
      }
    }

    /** Serves a layout exactly if some free block has its size and alignment. The block taken is
        the smallest kind that has both, and the result is aligned as asked. */
    method Alloc(size: nat, align: nat) returns (r: Option<nat>, ghost level: nat, ghost donor: nat)
      requires Valid() && IsPow2(align)
      modifies this, mem
      ensures Valid()
      ensures r.Some? <==>
        exists b :: b in old(free) && size <= Size(Geo(), b.level) && align <= Size(Geo(), b.level)
      ensures r.None? ==> unchanged(this, mem)
      ensures size <= Size(Geo(), 0) && align <= Size(Geo(), 0) ==>
        && level < levels && size <= Size(Geo(), level) && align <= Size(Geo(), level)
        && (level + 1 < levels ==> Size(Geo(), level + 1) < size || Size(Geo(), level + 1) < align)
      ensures r.None? && size <= Size(Geo(), 0) && align <= Size(Geo(), 0) ==>
        Step(Geo(), old(Abs()), Exhausted(level), Abs())
      ensures r.Some? ==> Step(Geo(), old(Abs()), Event.Alloc(level, donor, r.value), Abs())
      ensures r.Some? ==> Drawn(old(chains), chains, donor, level, r.value) && Multiple(r.value, align)
      ensures KeepsWords(Geo(), old(live), old(mem.word), mem.word)
    {
      level, donor := 0, 0;
      var request := Request(size, align);
      var found := GetLevelFromSize(request);
      RequestFits(Geo(), size, align, 0);
      if found.None? {
        NoneServes(Geo(), Abs(), size, align, level);
        return None, level, donor;
      }
      level := found.value;
      r, donor := ServeAt(found.value, size, align);
    }

    /** Takes back a block that `Alloc` served for the same layout. */
    method Dealloc(ptr: nat, size: nat, align: nat, ghost level: nat)
      requires Valid() && IsPow2(align)
      requires size <= Size(Geo(), 0) && align <= Size(Geo(), 0) ==>
        && level < levels && size <= Size(Geo(), level) && align <= Size(Geo(), level)
        && (level + 1 < levels ==> Size(Geo(), level + 1) < size || Size(Geo(), level + 1) < align)
        && Block(level, ptr) in live
      modifies this, mem
      ensures Valid()
      ensures size > Size(Geo(), 0) || align > Size(Geo(), 0) ==> unchanged(this, mem)
      ensures size <= Size(Geo(), 0) && align <= Size(Geo(), 0) ==>
        && Step(Geo(), old(Abs()), Free(Block(level, ptr)), Abs())
        && Refiled(old(chains), chains, MergedAt(Geo(), old(free), Block(level, ptr)), level, true)
      ensures KeepsWords(Geo(), live, old(mem.word), mem.word)
    {
      var request := Request(size, align);
      var found := GetLevelFromSize(request);
      RequestFits(Geo(), size, align, 0);
      if found.None? {
        return;
      }
      LayoutLevel(Geo(), size, align, level);
      LevelForUnique(Geo(), request, found.value, level);
      MergeBuddies(found.value, ptr);
    }

    /** An owner writing inside its own block cannot disturb the free lists. */
    method ClientWrite(b: Block, a: nat, v: nat)
      requires Valid() && b in live && Holds(Geo(), b, a) && a in mem.word
      modifies mem
      ensures Valid() && mem.word == old(mem.word)[a := v]
    {
      assert Covered(Geo(), live, a);
      forall l | 0 <= l < levels ensures Linked(mem.word[a := v], lists[l], chains[l]) {
        ListedApart(Geo(), Abs(), chains, l);
        assert Linked(mem.word, lists[l], chains[l]);
      }
      mem.word := mem.word[a := v];
    }
  }
}
