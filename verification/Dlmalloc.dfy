/** The boundary-tag allocator over one memory that it shares with its clients. */
module Dlmalloc {
  import opened HeapSizes
  import opened HeapShape
  import opened HeapMemory
  import opened HeapSteps
  import opened HeapTake
  import opened HeapSearch
  import opened HeapResize

  /** Where malloc found its chunk. */
  datatype Origin = FromBin | FromRemainder | FromTop | Nowhere

  /** What an attempt to extend a chunk achieved: nothing, all of it, or all but the final split. */
  datatype Attempt = Stuck | Done(chunk: int) | ToSplit(chunk: int, size: int)

  class Heap {
    var mem: Mem
    var top: int
    var binblocks: bv32
    var sbrkBase: int
    var brk: int
    const limit: int
    const topPad: nat
    const trimThreshold: nat
    ghost var sh: Shape
    ghost var refusals: nat       // how often MORECORE has refused

    /** Memory and padding together stay below 2 GiB, so that sizes are positive longs. */
    predicate InRange() { limit + topPad + 2 * PAGE <= TWO31 }

    /** Lists, tags and tiling agree; nothing yet about coalescing. */
    ghost predicate Sound()
      reads this
    {
      && Core(mem, sh, binblocks) && sh.top == top && BINS_END <= brk <= limit && InRange()
      && (top != INITIAL_TOP ==> top in sh.sz && top + sh.sz[top] == brk && sbrkBase != -1)
    }

    ghost predicate Valid()
      reads this
    {
      Sound() && Settled(sh)
    }

    constructor (initial: Mem, start: int, limit: int, topPad: nat, trimThreshold: nat)
      requires BINS_END <= start <= limit && limit + topPad + 2 * PAGE <= TWO31
      requires forall i :: 1 <= i < NAV ==> initial[BinAt(i) + FD] == BinAt(i) && initial[BinAt(i) + BK] == BinAt(i)
      ensures Valid() && Live(sh) == map[] && mem == initial && brk == start
      ensures this.limit == limit && this.topPad == topPad && this.trimThreshold == trimThreshold
    {
      mem := initial;
      top := INITIAL_TOP;
      binblocks := 0;
      sbrkBase := -1;
      brk := start;
      this.limit := limit;
      this.topPad := topPad;
      this.trimThreshold := trimThreshold;
      sh := Shape(map[], {}, map[], seq(NAV, i => []), map[], 0, INITIAL_TOP);
      refusals := 0;
    }

    /** chunksize; the initial top is a bin header whose size word is binblocks, still zero. */
    function ChunkSize(p: int): int
      reads this
    {
      if p == INITIAL_TOP then 0 else mem[p + SIZE] - mem[p + SIZE] % 4
    }

    /** A contiguous sbrk: the old break and a moved break, or -1 and no change. */
    method Morecore(n: int) returns (r: int)
      requires BINS_END <= brk && BINS_END <= brk + n < TWO32
      modifies `brk, `refusals
      ensures r == -1 ==> brk == old(brk) && refusals == old(refusals) + 1
      ensures r != -1 ==> r == old(brk) && brk == old(brk) + n <= limit && refusals == old(refusals)
    {
      var refuse: bool := *;
      if refuse || brk + n > limit {
        refusals := refusals + 1;
        return -1;
      }
      r := brk;
      brk := brk + n;
    }

    /** unlink(P, BK, FD) */
    method Unlink(p: int)
      requires Core(mem, sh, binblocks) && p in sh.at
      modifies `mem, `sh
      ensures Core(mem, sh, binblocks) && sh == Off(old(sh), p) && IsLoose(sh, p)
      ensures mem == UnlinkWrites(old(mem), p) && SameLive(old(mem), mem, old(sh))
    {
      hide *;
      CoreParts(mem, sh, binblocks);
      OffCore(mem, sh, binblocks, p);
      mem := UnlinkWrites(mem, p);
      sh := Off(sh, p);
    }

    /** Walks a large bin from its first chunk past every larger one. */
    method FindPlace(size: int, idx: int) returns (fd: int, ghost j: nat)
      requires Core(mem, sh, binblocks) && 2 <= idx < NAV
      ensures |sh.bins| == NAV && j <= |sh.bins[idx]| && fd == BinNode(sh, idx, j)
      ensures FrontPosition(sh.sz, sh.bins[idx], j, size)
    {
      hide Core;
      WalkEnds(mem, sh, binblocks, idx);
      ghost var l := sh.bins[idx];
      var b := BinAt(idx);
      fd := mem[b + FD];
      j := 0;
      while fd != b && size < ChunkSize(fd)
        invariant j <= |l| && fd == BinNode(sh, idx, j)
        invariant forall a :: 0 <= a < j ==> sh.sz[l[a]] > size
        decreases |l| - j
      {
        assert j < |l|;
        WalkStep(mem, sh, binblocks, idx, j);
        fd := mem[fd + FD];
        j := j + 1;
      }
      if j < |l| { WalkStep(mem, sh, binblocks, idx, j); }
    }

    /** mark_binblock */
    method MarkBinblock(idx: int)
      requires Core(mem, sh, binblocks) && 2 <= idx < NAV
      modifies `binblocks
      ensures Core(mem, sh, binblocks) && Marked(binblocks, idx / 4)
    {
      hide Core, Marked;
      MarkKeepsMarks(mem, sh, binblocks, idx / 4);
      binblocks := MarkMask(binblocks, Bit(idx / 4));
    }

    /** The first half of frontlink: the neighbours a chunk of this size goes between, its
        group of bins marked. */
    method FrontlinkPlace(size: int) returns (bk: int, fd: int, ghost j: nat)
      requires Core(mem, sh, binblocks) && MINSIZE <= size && size % 8 == 0
      modifies `binblocks
      ensures Core(mem, sh, binblocks)
      ensures 2 <= BinIndex(size) < NAV == |sh.bins| && Marked(binblocks, BinIndex(size) / 4)
      ensures FrontPosition(sh.sz, sh.bins[BinIndex(size)], j, size)
      ensures bk == BinNode(sh, BinIndex(size), j - 1) && fd == BinNode(sh, BinIndex(size), j)
    {
      hide Core, Marked, BinIndex, FrontPosition, BinAt;
      SizeHasBin(size);
      if size < MAX_SMALLBIN_SIZE {
        var idx := size / 8;
        WalkEnds(mem, sh, binblocks, idx);
        SmallBinFront(mem, sh, binblocks, size);
        MarkBinblock(idx);
        bk, fd, j := BinAt(idx), mem[BinAt(idx) + FD], 0;
      } else {
        var idx := BinIndex(size);
        WalkEnds(mem, sh, binblocks, idx);
        bk, fd, j := BinAt(idx), mem[BinAt(idx) + FD], 0;
        if fd == bk {
          EmptyBinFront(mem, sh, binblocks, idx, size);
          MarkBinblock(idx);
        } else {
          fd, j := FindPlace(size, idx);
          LinkBefore(mem, sh, binblocks, idx, j);
          bk := mem[fd + BK];
        }
      }
    }

    /** frontlink: bins a loose chunk in size order, ahead of others of its size. */
    method Frontlink(p: int, size: int) returns (ghost j: nat)
      requires Core(mem, sh, binblocks) && IsLoose(sh, p) && sh.sz[p] == size && mem[p + size] == size
      modifies `mem, `binblocks, `sh
      ensures Core(mem, sh, binblocks) && SameLive(old(mem), mem, old(sh))
      ensures 2 <= BinIndex(size) < NAV == |old(sh).bins| && FrontPosition(old(sh).sz, old(sh).bins[BinIndex(size)], j, size)
      ensures sh == BinInto(old(sh), p, BinIndex(size), j)
    {
      hide Core, Marked, BinIndex, FrontPosition, SameLive, BinNode, BinInto;
      HeadReads(mem, sh, binblocks, p);
      var bk, fd;
      bk, fd, j := FrontlinkPlace(size);
      FrontlinkCore(mem, sh, binblocks, p, size, j);
      mem := LinkWrites(mem, p, bk, fd);
      hide LinkWrites;
      assert j <= |sh.bins[BinIndex(size)]| by { PositionInRange(sh.sz, sh.bins[BinIndex(size)], j, size); }
      sh := BinInto(sh, p, BinIndex(size), j);
    }

    lemma TopInRange(nb: nat)
      requires Valid() && nb < TWO31
      ensures 0 <= ChunkSize(top) < TWO31 && AsLong(ChunkSize(top) - nb) == ChunkSize(top) - nb
    {
      hide Core, Settled;
      if top != INITIAL_TOP { TopReads(mem, sh, binblocks); }
      AsLongIs(ChunkSize(top) - nb);
    }

    /** Every chunk ends within the memory obtained. */
    lemma ChunkInRange(p: int)
      requires Valid() && p in sh.sz
      ensures BINS_END <= p && MINSIZE <= sh.sz[p] && p + sh.sz[p] <= brk < TWO31 && top in sh.sz
      ensures p != top ==> p + sh.sz[p] <= top
    {
      HeadReads(mem, sh, binblocks, p);
      CoreParts(mem, sh, binblocks);
      if p != top { NextChunk(sh, p); }
      hide Core, Settled, Tiled, Placed;
    }

    /** malloc_trim: gives whole pages at the end of top back, keeping pad bytes and a minimum chunk;
        a pad that wraps makes it take more than top has. */
    method Trim(pad: nat) returns (released: bool)
      requires Valid() && pad < TWO32 && !TrimWraps(ChunkSize(top), pad)
      modifies `mem, `sh, `brk, `refusals
      ensures Valid() && Live(sh) == old(Live(sh)) && SameLive(old(mem), mem, sh) && sh.at == old(sh.at) && sh.bins == old(sh.bins)
      ensures released <==> refusals == old(refusals) && old(ChunkSize(top)) > pad + MINSIZE + PAGE
      ensures released ==> sh.top == old(sh.top) && sh.top in sh.sz && pad + MINSIZE < sh.sz[sh.top] <= pad + MINSIZE + PAGE
      ensures released ==> brk < old(brk) && (old(brk) - brk) % PAGE == 0
      ensures refusals >= old(refusals)
      ensures !released ==> brk == old(brk) && sh == old(sh) && mem == old(mem)
    {
      hide Core, Settled, SameLive, ResizeTop, TrimExtra, IntendedExtra;
      if top != INITIAL_TOP { TopReads(mem, sh, binblocks); }
      LiveRefl(mem, sh);
      var topSize := ChunkSize(top);
      TrimLeaves(topSize, pad);
      hide TrimWraps;
      var extra := TrimExtra(topSize, pad);
      if extra < PAGE {
        return false;
      }
      var current := Morecore(0);
      if current != top + topSize {
        return false;
      }
      var newBrk := Morecore(-extra);
      if newBrk == -1 {
        current := Morecore(0);
        if current - top >= MINSIZE {
          assert mem[top + SIZE := current - top + 1] == mem;
          mem := mem[top + SIZE := current - top + 1];
        }
        return false;
      }
      SetTopSize(topSize - extra);
      released := true;
    }

    /** set_head(next, nextsz): the chunk is no longer in use. */
    method Release(p: int, next: int, nextsz: int)
      requires Valid() && p in sh.used && p in sh.sz && next == Next(sh.sz, p) && next in sh.sz && nextsz == sh.sz[next]
      modifies `mem, `sh
      ensures Core(mem, sh, binblocks) && sh == WithUse(old(sh), p, false)
      ensures SameLive(old(mem), mem, sh) && WithoutLive(old(sh), sh, p)
    {
      hide Core, Tiled, Placed, Settled, SameLive;
      CoreParts(mem, sh, binblocks);
      ReleasedFacts(sh, p);
      UseCore(mem, sh, binblocks, p, false);
      ReleaseUses(sh, p);
      LiveSub(mem, mem[next + SIZE := nextsz], sh, WithUse(sh, p, false), p);
      mem := mem[next + SIZE := nextsz];
      sh := WithUse(sh, p, false);
    }

    /** Consolidating backward: a last remainder is kept where it is, any other chunk unlinked. */
    method TakePrev(q: int) returns (islr: bool, ghost g: Mem)
      requires Core(mem, sh, binblocks) && Placed(sh) && q in sh.at
      modifies `mem, `sh
      ensures Holding(mem, g, sh, binblocks, q, islr) && sh == Off(old(sh), q) && SameLive(old(mem), g, sh)
      ensures islr <==> old(sh).at[q] == LAST_REMAINDER
    {
      hide Core, Placed, SameLive, Holding, UnlinkWrites, Off;
      HoldPrev(mem, sh, binblocks, q);
      g := UnlinkWrites(mem, q);
      islr := mem[q + FD] == LAST;
      if !islr {
        mem := UnlinkWrites(mem, q);
      }
      sh := Off(sh, q);
    }

    /** Consolidating forward: p takes over the slot of a last remainder, any other chunk is unlinked. */
    method TakeNext(p: int, next: int, keep: bool, ghost g0: Mem) returns (islr: bool, ghost g: Mem)
      requires Holding(mem, g0, sh, binblocks, p, keep) && Placed(sh) && next in sh.at && next != p
      modifies `mem, `sh
      ensures Holding(mem, g, sh, binblocks, p, islr) && sh == Off(old(sh), next) && SameLive(g0, g, sh)
      ensures islr <==> keep || old(sh).at[next] == LAST_REMAINDER
    {
      hide Core, Placed, SameLive, Holding, UnlinkWrites, LinkWrites, Off;
      HoldNext(mem, g0, sh, binblocks, p, keep, next);
      g := UnlinkWrites(g0, next);
      islr := keep;
      if !keep && mem[next + FD] == LAST {
        islr := true;
        mem := LastWrites(mem, p);
      } else {
        mem := UnlinkWrites(mem, next);
      }
      sh := Off(sh, next);
    }

    /** Free's look at the chunk before: released, chunk is joined to that if it is free. */
    method GatherBackward(chunk: int, next: int, nextsz: int) returns (p: int, sz: int, islr: bool, ghost g: Mem, ghost back: bool)
      requires Valid() && chunk in sh.used && chunk in sh.sz && next == Next(sh.sz, chunk) && next in sh.sz && nextsz == sh.sz[next] && next != top
      modifies `mem, `sh
      ensures Holding(mem, g, sh, binblocks, p, islr) && Gathering(old(sh), sh, chunk, p, back, false)
      ensures SameLive(old(mem), g, sh) && WithoutLive(old(sh), sh, chunk)
      ensures back <==> PrevInUse(old(sh), chunk) == 0
      ensures sz == old(sh).sz[chunk] + if back && p in old(sh).sz then old(sh).sz[p] else 0
      ensures islr <==> back && p in old(sh).at && old(sh).at[p] == LAST_REMAINDER
    {
      hide Core, Tiled, Placed, Settled, SameLive, PrevInUse, Holding, Off, IsLoose, IsFree, WithoutLive, WithUse, Gathering;
      ghost var s0, m0 := sh, mem;
      CoreParts(mem, sh, binblocks);
      GatherFacts(mem, sh, binblocks, chunk);
      GatherStart(s0, chunk);
      p := chunk;
      var hd := mem[p + SIZE];
      sz := hd - hd % 2;
      Release(p, next, nextsz);
      g, islr := mem, false;
      back := hd % 2 == 0;
      HoldNothing(mem, sh, binblocks, p);
      if hd % 2 == 0 {
        PrevFoot(mem, s0, sh, binblocks, chunk);
        GatherBack(s0, sh, chunk);
        OffUses(s0, sh, chunk, s0.prv[chunk]);
        ghost var s1, m1 := sh, mem;
        var prevsz := mem[p];
        p := p - prevsz;
        sz := sz + prevsz;
        islr, g := TakePrev(p);
        LiveTrans(m0, m1, g, s1, sh);
      }
    }

    /** The middle of free: the chunk released and its free neighbours taken off their lists,
        all but a last remainder, whose slot the result will keep. */
    method Gather(chunk: int) returns (p: int, sz: int, islr: bool, ghost g: Mem, ghost k: nat)
      requires Valid() && chunk in sh.used && chunk in sh.sz && Next(sh.sz, chunk) != top
      modifies `mem, `sh
      ensures Holding(mem, g, sh, binblocks, p, islr) && k <= 2 && LooseRun(sh, p, k) && sz == RunSize(sh, p, k)
      ensures SameLive(old(mem), g, sh) && WithoutLive(old(sh), sh, chunk)
      ensures p == FreedStart(old(sh), chunk) && sz == MergedSize(old(sh), chunk) && (islr <==> TouchesLast(old(sh), chunk))
    {
      hide Core, Tiled, Placed, Settled, SameLive, PrevInUse, Holding, LooseRun, Off, IsLoose, IsFree, WithoutLive, WithUse, Gathering, FreedStart, MergedSize, TouchesLast;
      ghost var s0, m0 := sh, mem;
      CoreParts(mem, sh, binblocks);
      GatherFacts(mem, sh, binblocks, chunk);
      var next := chunk + (mem[chunk + SIZE] - mem[chunk + SIZE] % 2);
      var nextsz := ChunkSize(next);
      ghost var back, forth;
      p, sz, islr, g, back := GatherBackward(chunk, next, nextsz);
      GatheringKeeps(s0, sh, chunk, p, back, false);
      NextBitReads(mem, g, sh, binblocks, p, islr, next);
      forth := mem[next + nextsz + SIZE] % 2 == 0;
      if mem[next + nextsz + SIZE] % 2 == 0 {
        GatherForth(s0, sh, chunk, p, back);
        OffUses(s0, sh, chunk, next);
        ghost var s1, g1 := sh, g;
        ForthStill(s0, sh, chunk, p, back);
        sz := sz + nextsz;
        islr, g := TakeNext(p, next, islr, g);
        LiveTrans(m0, g1, g, s1, sh);
      }
      GatherEnds(s0, sh, chunk, p, back, forth, sz, islr);
      k := (if back then 1 else 0) + (if forth then 1 else 0);
    }

    /** Chunk c and its free neighbours are one free chunk, the last remainder if that was one of them,
        else in the bin of its size. */
    static ghost predicate Coalesced(s: Shape, t: Shape, c: int)
    {
      var q := FreedStart(s, c);
      c in s.sz && q in t.sz && q in t.at && t.sz[q] == MergedSize(s, c) && t.at[q] == if TouchesLast(s, c) then LAST_REMAINDER else BinIndex(t.sz[q])
    }

    static lemma IsCoalesced(s: Shape, t: Shape, c: int, p: int, sz: int, last: bool)
      requires c in s.sz && p == FreedStart(s, c) && sz == MergedSize(s, c) && (last <==> TouchesLast(s, c))
      requires p in t.sz && t.sz[p] == sz && p in t.at && t.at[p] == if last then LAST_REMAINDER else BinIndex(sz)
      ensures Coalesced(s, t, c)
    {
    }

    /** free of a chunk that does not border top: coalesced with its free neighbours and binned,
        or kept as the last remainder when it swallowed that. */
    method FreeBelowTop(chunk: int)
      requires Valid() && chunk in sh.used && chunk in sh.sz && Next(sh.sz, chunk) != top
      modifies `mem, `binblocks, `sh
      ensures Core(mem, sh, binblocks) && Settled(sh) && SameLive(old(mem), mem, sh) && WithoutLive(old(sh), sh, chunk)
      ensures Coalesced(old(sh), sh, chunk)
    {
      hide Core, Settled, SettledBut, Walled, SameLive, PrevInUse, Holding, LooseRun, RunSize, WithoutLive, SameUses, FrontPosition, BinIndex, Coalesced, FreedStart, MergedSize, TouchesLast;
      ghost var s0, m0 := sh, mem;
      var p, sz, islr;
      ghost var g, k;
      p, sz, islr, g, k := Gather(chunk);
      ghost var s1 := sh;
      ghost var t := FinishRun(mem, g, sh, binblocks, p, islr, k);
      WithoutThenSame(s0, s1, t, chunk);
      ghost var g2 := g[p + SIZE := sz + 1][p + sz := sz];
      LiveAcross(m0, g, g2, s1, t);
      mem := mem[p + SIZE := sz + 1][p + sz := sz];
      sh := t;
      if islr {
        FinishLast(mem, g2, t, binblocks, p);
        HoldingParts(mem, g2, t, binblocks, p, islr);
        WithoutThenBin(s0, t, chunk, p, LAST_REMAINDER, 0);
        LiveTrans(m0, g2, mem, t, t);
        sh := BinInto(t, p, LAST_REMAINDER, 0);
      } else {
        HoldingParts(mem, g2, t, binblocks, p, islr);
        ghost var j := Frontlink(p, sz);
        PositionInRange(t.sz, t.bins[BinIndex(sz)], j, sz);
        BinSettles(t, p, BinIndex(sz), j);
        WithoutThenBin(s0, t, chunk, p, BinIndex(sz), j);
        LiveTrans(m0, g2, mem, t, t);
      }
      LiveSameShape(m0, mem, t, sh);
      IsCoalesced(s0, sh, chunk, p, sz, islr);
    }

    /** free of a chunk that borders top: the chunk, and a free chunk before it, become top. */
    method FreeIntoTop(chunk: int)
      requires Valid() && chunk in sh.used && chunk in sh.sz && Next(sh.sz, chunk) == top
      modifies `mem, `top, `sh
      ensures FreedIntoTop(old(mem), mem, old(sh), sh, binblocks, chunk, top, brk - top)
      ensures top == FreedStart(old(sh), chunk)
    {
      hide Core, Settled, PrevInUse, UnlinkWrites, FreedIntoTop, Off, IsLoose, SameLive, FreedStart;
      HeadReads(mem, sh, binblocks, chunk);
      HeadReads(mem, sh, binblocks, top);
      var p := chunk;
      var hd := mem[p + SIZE];
      var sz := hd - hd % 2 + ChunkSize(top);
      if hd % 2 == 0 {
        ghost var t := TopFreeBack(mem, sh, binblocks, p);
        var prevsz := mem[p];
        p := p - prevsz;
        sz := sz + prevsz;
        Unlink(p);
      mem := mem[p + SIZE := sz + 1];
        sh := t;
      } else {
        ghost var t := TopFree(mem, sh, binblocks, p);
        mem := mem[p + SIZE := sz + 1];
        sh := t;
      }
      top := p;
    }

    /** What malloc_trim leaves of top after free: the padding, a minimum chunk and less than a page, or
        a page. */
    predicate Trimmed(size: int)
      reads this
    {
      topPad + MINSIZE < size <= topPad + MINSIZE + PAGE
    }

    /** free() */
    method Free(ptr: int)
      requires Valid() && (ptr != 0 ==> ptr - 8 in sh.used)
      modifies this
      ensures Valid() && SameLive(old(mem), mem, sh)
      ensures Live(sh) == if ptr == 0 then old(Live(sh)) else old(Live(sh)) - {ptr - 8}
      ensures ptr == 0 ==> mem == old(mem) && brk == old(brk)
      ensures brk <= old(brk) && refusals >= old(refusals)
      ensures ptr != 0 && ptr - 8 in old(sh).sz && Next(old(sh).sz, ptr - 8) != old(top) ==>
                Coalesced(old(sh), sh, ptr - 8) && top == old(top) && brk == old(brk) && refusals == old(refusals)
      ensures ptr != 0 && ptr - 8 in old(sh).sz && Next(old(sh).sz, ptr - 8) == old(top) ==>
                && top == FreedStart(old(sh), ptr - 8)
                && (brk == old(brk) || Trimmed(brk - top))
                && (refusals == old(refusals) ==> (brk < old(brk) <==> old(brk) - top >= trimThreshold && old(brk) - top > topPad + MINSIZE + PAGE))
    {
      hide Core, Settled, SameLive, FreedIntoTop, WithoutLive, Live, Tiled, Placed;
      if ptr == 0 {
        LiveRefl(mem, sh);
        return;
      }
      var p := ptr - 8;
      ghost var s0, m0 := sh, mem;
      CoreChunks(mem, sh, binblocks);
      UsedFacts(sh, p);
      HeadReads(mem, sh, binblocks, p);
      var hd := mem[p + SIZE];
      if p + (hd - hd % 2) == top {
        FreeIntoTop(p);
        FreedIntoTopParts(m0, mem, s0, sh, binblocks, p, top, brk - top);
        TopReads(mem, sh, binblocks);
        if ChunkSize(top) >= trimThreshold {
          ghost var s1, m1 := sh, mem;
          var released := Trim(topPad);
          LiveChain(m0, m1, mem, s1, sh);
        }
      } else {
        FreeBelowTop(p);
        WithoutLiveIs(s0, sh, p);
        WithoutTop(s0, sh, p);
      }
    }

    /** (x + (PAGE - 1)) & ~(PAGE - 1) */
    static function PageUp(x: int): (r: int)
      ensures x <= r < x + PAGE && r % ALIGNMENT == 0
    {
      var y := x + (PAGE - 1);
      PagesAreAligned(y);
      y - y % PAGE
    }

    /** set_head(top, size | PREV_INUSE): top ends elsewhere. */
    method SetTopSize(size: int)
      requires Core(mem, sh, binblocks) && Settled(sh) && sh.top == top != INITIAL_TOP && size % 8 == 0 && MINSIZE <= size
      modifies `mem, `sh
      ensures Core(mem, sh, binblocks) && Settled(sh) && Live(sh) == old(Live(sh)) && SameLive(old(mem), mem, sh)
      ensures sh == ResizeTop(old(sh), size) && top in sh.sz && sh.sz[top] == size
      ensures sh.top == top && sh.at == old(sh.at) && sh.bins == old(sh.bins) && top !in sh.at && top in old(sh).sz
    {
      hide Core, Settled, SameLive, Live, ResizeTop;
      CoreParts(mem, sh, binblocks);
      BinnedIsNotTop(sh);
      ResizeTopValid(mem, sh, binblocks, size);
      ResizeFields(sh, size);
      mem := mem[top + SIZE := size + 1];
      sh := ResizeTop(sh, size);
    }

    /** The first top: a chunk made of all memory obtained so far. */
    method FirstTop(p: int, size: int)
      requires Core(mem, sh, binblocks) && sh.top == INITIAL_TOP && Legal(p, size)
      modifies `mem, `sh, `top
      ensures Core(mem, sh, binblocks) && Settled(sh) && Live(sh) == old(Live(sh)) && SameLive(old(mem), mem, sh)
      ensures sh.top == top == p && p in sh.sz && sh.sz[p] == size && p != INITIAL_TOP
      ensures sh.at == old(sh.at) == map[] && sh.bins == old(sh.bins)
    {
      hide Core, Settled, SameLive, Live;
      ghost var t := NewArena(mem, sh, binblocks, p, size);
      mem := mem[p + SIZE := size + 1];
      top := p;
      sh := t;
      NoLive(old(mem), mem, t);
    }

    /** The rest of the first malloc_extend_top: align the first chunk and round the break up to a page. */
    method FirstExtend(start: int, sbrkSize: int, nb: int)
      requires Core(mem, sh, binblocks) && Settled(sh) && sh.top == top == INITIAL_TOP && InRange()
      requires BINS_END <= start && brk == start + sbrkSize && brk <= limit && MINSIZE <= nb && nb + MINSIZE <= sbrkSize && nb % 8 == 0
      modifies `mem, `top, `sbrkBase, `brk, `sh, `refusals
      ensures Valid() && Live(sh) == old(Live(sh)) && SameLive(old(mem), mem, sh) && sh.at == old(sh.at) == map[] && sh.bins == old(sh.bins)
      ensures refusals >= old(refusals) && old(brk) <= brk < old(brk) + PAGE + ALIGNMENT
      ensures refusals == old(refusals) ==> top != INITIAL_TOP && sh.sz[top] >= nb + MINSIZE
      ensures refusals != old(refusals) ==> mem == old(mem) && sh == old(sh)
    {
      hide Core, Settled, SameLive, PageUp, Live;
      LiveRefl(mem, sh);
      EmptyArena(mem, sh, binblocks);
      var newMem := start;
      if sbrkBase == -1 {
        sbrkBase := newMem;
      }
      var correction := 0;
      if (newMem + 8) % ALIGNMENT > 0 {
        correction := ALIGNMENT - (newMem + 8) % ALIGNMENT;
        newMem := newMem + correction;
      }
      correction := correction + PageUp(newMem + sbrkSize) - (newMem + sbrkSize);
      var newBrk := Morecore(correction);
      if newBrk == -1 {
        return;
      }
      FirstTop(newMem, newBrk - newMem + correction);
    }

    /** What malloc_extend_top takes for a refusal. */
    predicate GivesUp(r: int, oldEnd: int)
      reads this
    {
      r == -1 || (r < oldEnd && top != INITIAL_TOP)
    }

    /** An sbrk that refuses with another value below all memory, as the board's does with null, is
        noticed except before there is a top; the first chunk would then not be a legal one. */
    lemma RefusalNoticed(r: int)
      requires Valid() && r != -1 && r < BINS_END
      ensures GivesUp(r, top + ChunkSize(top)) <==> top != INITIAL_TOP
      ensures forall size :: !Legal(r, size)
    {
      if top != INITIAL_TOP { TopReads(mem, sh, binblocks); }
    }

    /** sbrk_size: whole pages but for the first request, in 32 bits. */
    static function SbrkSize(nb: int, pad: int, more: bool): int
    {
      var size := (nb + pad + MINSIZE) % TWO32;
      if more then PageUp(size) % TWO32 else size
    }

    static lemma SbrkSizeIs(nb: int, pad: nat, more: bool)
      requires 0 <= nb < TWO31 && pad + 2 * PAGE <= TWO31
      ensures nb + pad + MINSIZE <= SbrkSize(nb, pad, more) < nb + pad + MINSIZE + PAGE <= TWO32
      ensures more ==> SbrkSize(nb, pad, more) % ALIGNMENT == 0
    {
    }

    /** What the break moves by at most: the request, the padding and a minimum chunk, up to the next page,
        and the two corrections of the first extension. */
    function Wanted(nb: int): int
      reads this
    {
      nb + topPad + MINSIZE + 2 * PAGE + ALIGNMENT
    }

    /** malloc_extend_top: more memory at the end of top, or the first top; unchanged when refused. */
    method ExtendTop(nb: int)
      requires Valid() && nb % 8 == 0 && MINSIZE <= nb < TWO31
      modifies `mem, `top, `sbrkBase, `brk, `sh, `refusals
      ensures Valid() && Live(sh) == old(Live(sh)) && SameLive(old(mem), mem, sh) && sh.at == old(sh.at) && sh.bins == old(sh.bins)
      ensures forall q :: q in sh.at && q in sh.sz && q in old(sh).sz ==> sh.sz[q] == old(sh).sz[q]
      ensures refusals >= old(refusals) && old(brk) <= brk < old(brk) + Wanted(nb)
      ensures refusals == old(refusals) ==> top != INITIAL_TOP && sh.sz[top] >= nb + MINSIZE
      ensures refusals != old(refusals) ==> mem == old(mem) && sh == old(sh)
    {
      hide Core, Settled, SameLive, PageUp, Live;
      LiveRefl(mem, sh);
      if top != INITIAL_TOP { TopReads(mem, sh, binblocks); }
      var oldTopSize := ChunkSize(top);
      var oldEnd := top + oldTopSize;
      var sbrkSize := SbrkSize(nb, topPad, sbrkBase != -1);
      SbrkSizeIs(nb, topPad, sbrkBase != -1);
      hide SbrkSize;
      var newMem := Morecore(sbrkSize);
      if GivesUp(newMem, oldEnd) {
        return;
      }
      if newMem == oldEnd {
        SetTopSize(sbrkSize + oldTopSize);
      } else {
        FirstExtend(newMem, sbrkSize, nb);
      }
    }

    /** A chunk that fits as it is: unlink it and set the in-use bit behind it. */
    method TakeChunk(p: int, size: int)
      requires Core(mem, sh, binblocks) && Settled(sh) && p in sh.at && p in sh.sz && size == sh.sz[p]
      modifies `mem, `sh
      ensures HandedOut(old(mem), mem, old(sh), sh, binblocks, p, size) && sh.top == old(sh).top && sh.sz == old(sh).sz
    {
      hide Core, Settled, HandedOut, UnlinkWrites;
      BinnedSize(mem, sh, binblocks, p);
      TakeReads(mem, sh, binblocks, p);
      HeadReads(mem, sh, binblocks, p + size);
      ghost var t := TakeWhole(mem, sh, binblocks, p);
      Unlink(p);
      mem := mem[p + size + SIZE := WithPrevInUse(mem[p + size + SIZE])];
      sh := t;
    }

    /** The same with the in-use bit set first, as the bin search does it. */
    method TakeFound(p: int, size: int)
      requires Core(mem, sh, binblocks) && Settled(sh) && p in sh.at && p in sh.sz && size == sh.sz[p]
      modifies `mem, `sh
      ensures HandedOut(old(mem), mem, old(sh), sh, binblocks, p, size) && sh.top == old(sh).top && sh.sz == old(sh).sz
    {
      hide Core, Settled, HandedOut, UnlinkWrites;
      BinnedSize(mem, sh, binblocks, p);
      TakeReads(mem, sh, binblocks, p);
      HeadReads(mem, sh, binblocks, p + size);
      ghost var t := TakeWhole(mem, sh, binblocks, p);
      UnlinkPastHead(mem, sh, binblocks, p, p + size, sh.sz[p + size] + 1);
      mem := mem[p + size + SIZE := WithPrevInUse(mem[p + size + SIZE])];
      mem := UnlinkWrites(mem, p);
      sh := t;
    }

    /** malloc, small requests: the bin of that size and the next one up need no search. */
    method SmallExact(nb: int) returns (p: int)
      requires Valid() && MINSIZE <= nb < MAX_SMALLBIN_SIZE - 8 && nb % 8 == 0
      modifies `mem, `sh
      ensures p == 0 ==> mem == old(mem) && sh == old(sh) && SearchFrom(sh, nb, nb / 8 + 2) && NoExact(sh, nb)
      ensures p != 0 ==> BestFit(old(sh), p, nb) && p in old(sh).sz && old(sh).sz[p] < nb + MINSIZE && !NoExact(old(sh), nb)
      ensures p != 0 ==> HandedOut(old(mem), mem, old(sh), sh, binblocks, p, old(sh).sz[p]) && sh.top == top && sh.sz == old(sh).sz
    {
      hide Core, Settled, HandedOut, SearchFrom, BestFit, BinNode, NoExact;
      var idx := nb / 8;
      WalkEnds(mem, sh, binblocks, idx);
      var victim := mem[BinAt(idx) + BK];
      LastOf(mem, sh, binblocks, idx);
      if victim == BinAt(idx) {
        idx := idx + 1;
        WalkEnds(mem, sh, binblocks, idx);
        LastOf(mem, sh, binblocks, idx);
        victim := mem[BinAt(idx) + BK];
      }
      if victim == BinAt(idx) {
        SmallStart(mem, sh, binblocks, nb);
        NoneSmall(mem, sh, binblocks, nb);
        return 0;
      }
      ghost var j := |sh.bins[idx]| - 1;
      SmallBest(mem, sh, binblocks, nb, idx, j);
      SizeHasBin(nb);
      ExactThere(mem, sh, binblocks, nb, idx, j);
      WalkStep(mem, sh, binblocks, idx, j);
      p := victim;
      TakeChunk(p, ChunkSize(p));
    }

    /** malloc, other requests: the request's own bin, smallest chunk first; a chunk too big for
        an exact fit is left for the search, which then starts at this bin. */
    method LargeExact(nb: int) returns (p: int, idx: int)
      requires Valid() && MAX_SMALLBIN_SIZE - 8 <= nb && nb % 8 == 0
      modifies `mem, `sh
      ensures p == 0 ==> mem == old(mem) && sh == old(sh) && SearchFrom(sh, nb, idx) && idx < NAV && NoExact(sh, nb)
      ensures p != 0 ==> BestFit(old(sh), p, nb) && p in old(sh).sz && old(sh).sz[p] < nb + MINSIZE && !NoExact(old(sh), nb)
      ensures p != 0 ==> HandedOut(old(mem), mem, old(sh), sh, binblocks, p, old(sh).sz[p]) && sh.top == top && sh.sz == old(sh).sz
    {
      hide Core, Settled, HandedOut, SearchFrom, BestFit, NoneBelow, BinIndex, NoExact;
      LargeStart(mem, sh, binblocks, nb);
      idx := BinIndex(nb);
      WalkEnds(mem, sh, binblocks, idx);
      var bin := BinAt(idx);
      var victim := mem[bin + BK];
      ghost var l := sh.bins[idx];
      ghost var j: int := |l| - 1;
      while victim != bin
        invariant mem == old(mem) && sh == old(sh) && 2 <= idx < NAV == |sh.bins| && l == sh.bins[idx]
        invariant -1 <= j < |l| && victim == BinNode(sh, idx, j)
        invariant forall k :: j < k < |l| ==> l[k] in sh.sz && sh.sz[l[k]] < nb
        decreases j + 1
      {
        WalkStep(mem, sh, binblocks, idx, j);
        var remainderSize := ChunkSize(victim) - nb;
        if remainderSize >= MINSIZE {
          TooBigStart(mem, sh, binblocks, nb, j);
          NoneLarge(mem, sh, binblocks, nb, j);
          return 0, idx;
        } else if remainderSize >= 0 {
          FoundBest(mem, sh, binblocks, nb, idx, j);
          ExactThere(mem, sh, binblocks, nb, idx, j);
          p := victim;
          TakeChunk(p, ChunkSize(p));
          return;
        }
        victim := mem[victim + BK];
        j := j - 1;
      }
      EndOfBin(mem, sh, binblocks, idx, j);
      LargeNext(mem, sh, binblocks, nb);
      NoneLarge(mem, sh, binblocks, nb, -1);
      return 0, idx + 1;
    }

    /** clear_last_remainder, then frontlink of what it held. */
    method BinRemainder(v: int, size: int) returns (ghost j: nat)
      requires Core(mem, sh, binblocks) && Settled(sh) && v in sh.at && sh.at[v] == LAST_REMAINDER && v in sh.sz && size == sh.sz[v]
      modifies `mem, `sh, `binblocks
      ensures Core(mem, sh, binblocks) && Settled(sh) && Live(sh) == old(Live(sh)) && SameLive(old(mem), mem, old(sh))
      ensures Rebinned(old(sh), sh, v, j)
    {
      hide Core, Settled, SettledBut, Tiled, Placed, SameLive, UnlinkWrites, Off, BinIndex, FrontPosition, PrevInUse, BinInto, Rebinned, IsLoose;
      ghost var s0, m0, b0 := sh, mem, binblocks;
      CoreParts(mem, sh, binblocks);
      ClearReads(mem, sh, binblocks, v);
      mem := mem[LAST + BK := LAST][LAST + FD := LAST];
      sh := Off(sh, v);
      ghost var s1, m1 := sh, mem;
      j := Frontlink(v, size);
      PositionInRange(s1.sz, s1.bins[BinIndex(size)], j, size);
      RemainderSettles(m1, s0, b0, v, j);
      RebinnedBy(s0, v, j);
      LiveSameShape(m1, mem, s1, s0);
      LiveTrans(m0, m1, mem, s0, s0);
      LiveSameUses(s0, sh);
    }

    /** malloc, the last remainder: split again when large enough, taken whole when it fits, or
        else moved to the bin of its size. */
    method TryRemainder(nb: int, ghost idx: int) returns (p: int)
      requires Valid() && SearchFrom(sh, nb, idx)
      modifies `mem, `sh, `binblocks
      ensures p != 0 ==> p in old(sh).at && old(sh).at[p] == LAST_REMAINDER
      ensures p != 0 ==> HandedOut(old(mem), mem, old(sh), sh, binblocks, p, if p in sh.sz then sh.sz[p] else 0)
      ensures p != 0 ==> p in sh.sz && nb <= sh.sz[p] < nb + MINSIZE && sh.top == top && (top != INITIAL_TOP ==> top in sh.sz && sh.sz[top] == old(sh).sz[top])
      ensures p == 0 ==> Valid() && SearchFrom(sh, nb, idx) && sh.bins[LAST_REMAINDER] == []
      ensures p == 0 ==> Live(sh) == old(Live(sh)) && SameLive(old(mem), mem, old(sh)) && sh.sz == old(sh).sz && sh.used == old(sh).used
      ensures p == 0 ==> forall q :: Candidate(sh, q, nb) <==> Candidate(old(sh), q, nb)
      ensures p == 0 ==> forall q :: q in old(sh).at && q in sh.sz && old(sh).at[q] == LAST_REMAINDER ==> sh.sz[q] < nb
    {
      hide Core, Settled, HandedOut, SearchFrom, Live, SameLive, SplitWrites, ResplitWrites, Rebinned;
      RemainderSlot(mem, sh, binblocks);
      var victim := mem[LAST + FD];
      if victim == LAST {
        LiveRefl(mem, sh);
        return 0;
      }
      HeadReads(mem, sh, binblocks, victim);
      SearchBounds(sh, nb, idx);
      var size := ChunkSize(victim);
      if size - nb >= MINSIZE {
        ghost var t := SplitTake(mem, sh, binblocks, victim, nb);
        ResplitIs(mem, sh, binblocks, victim, nb);
        mem := ResplitWrites(mem, victim, nb, size);
        sh := t;
        HandedOutSize(old(mem), mem, old(sh), sh, binblocks, victim, nb);
        return victim;
      }
      if size >= nb {
        TakeChunk(victim, size);
        HandedOutSize(old(mem), mem, old(sh), sh, binblocks, victim, size);
        return victim;
      }
      ghost var s0, m0, b0 := sh, mem, binblocks;
      ghost var j := BinRemainder(victim, size);
      RemainderBinned(m0, s0, sh, b0, victim, nb, idx, j);
      RebinnedFields(s0, sh, victim, j);
      return 0;
    }

    /** p is a new chunk, at least nb bytes and less than a minimum chunk more, below top. */
    ghost predicate Served(m0: Mem, s0: Shape, p: int, nb: int)
      reads this
    {
      && p in sh.sz && nb <= sh.sz[p] < nb + MINSIZE
      && HandedOut(m0, mem, s0, sh, binblocks, p, sh.sz[p])
      && sh.top == top && (top != INITIAL_TOP ==> top in sh.sz && top in s0.sz && sh.sz[top] == s0.sz[top])
    }

    /** One bin of the search, smallest chunk first: split or take the first that fits. */
    method ScanBin(nb: int, idx: int) returns (p: int)
      requires Valid() && SearchFrom(sh, nb, idx) && idx < NAV && sh.bins[LAST_REMAINDER] == []
      modifies `mem, `sh
      ensures p == 0 ==> mem == old(mem) && sh == old(sh) && sh.bins[idx] == []
      ensures p != 0 ==> BestFit(old(sh), p, nb) && Served(old(mem), old(sh), p, nb)
    {
      hide Core, Settled, HandedOut, SearchFrom, BestFit, NoneBelow, BinIndex, SplitWrites, SplitBinWrites;
      SearchBounds(sh, nb, idx);
      SearchNone(sh, nb, idx);
      WalkEnds(mem, sh, binblocks, idx);
      var bin := BinAt(idx);
      var victim := mem[bin + BK];
      ghost var l := sh.bins[idx];
      ghost var j: int := |l| - 1;
      while victim != bin
        invariant mem == old(mem) && sh == old(sh) && 2 <= idx < NAV == |sh.bins| && l == sh.bins[idx]
        invariant -1 <= j < |l| && victim == BinNode(sh, idx, j)
        invariant forall k :: j < k < |l| ==> l[k] in sh.sz && sh.sz[l[k]] < nb
        decreases j + 1
      {
        WalkStep(mem, sh, binblocks, idx, j);
        var size := ChunkSize(victim);
        if size - nb >= 0 {
          FoundBest(mem, sh, binblocks, nb, idx, j);
        }
        if size - nb >= MINSIZE {
          ghost var t := SplitTake(mem, sh, binblocks, victim, nb);
          SplitBinIs(mem, sh, binblocks, victim, nb);
          mem := SplitBinWrites(mem, victim, nb, size);
          sh := t;
          HandedOutSize(old(mem), mem, old(sh), sh, binblocks, victim, nb);
          return victim;
        } else if size - nb >= 0 {
          TakeFound(victim, size);
          HandedOutSize(old(mem), mem, old(sh), sh, binblocks, victim, size);
          return victim;
        }
        victim := mem[victim + BK];
        j := j - 1;
      }
      EndOfBin(mem, sh, binblocks, idx, j);
      ScannedEmpty(mem, sh, binblocks, nb, idx);
      p := 0;
    }

    /** After a group of bins was scanned to its end: clear its bit, stepping back over the bins
        before the first scanned one and giving up at the first that is not empty. */
    method ClearGroup(first: int, block: bv32)
      requires Core(mem, sh, binblocks) && 4 <= first < NAV && block == Bit(first / 4) && |sh.bins| == NAV
      requires forall i :: first <= i < first - first % 4 + 4 ==> sh.bins[i] == []
      modifies `binblocks
      ensures Core(mem, sh, binblocks)
    {
      hide Core;
      var startIdx := first;
      while true
        invariant 4 <= startIdx <= first && startIdx / 4 == first / 4 && Core(mem, sh, binblocks) && binblocks == old(binblocks)
        invariant forall i :: startIdx <= i < first - first % 4 + 4 ==> sh.bins[i] == []
        decreases startIdx
      {
        if startIdx % 4 == 0 {
          ClearKeepsMarks(mem, sh, binblocks, first / 4);
          binblocks := ClearMask(binblocks, block);
          return;
        }
        startIdx := startIdx - 1;
        WalkEnds(mem, sh, binblocks, startIdx);
        if mem[BinAt(startIdx) + FD] != BinAt(startIdx) {
          return;
        }
        EmptyBinFront(mem, sh, binblocks, startIdx, 0);
      }
    }

    /** Steps to the first marked group, at or above a group boundary. */
    method NextMarked(nb: int, first: int, bit: bv32) returns (idx: int, block: bv32)
      requires Core(mem, sh, binblocks) && SearchFrom(sh, nb, first) && first < NAV && first % 4 == 0
      requires first >= 4 && bit == Bit(first / 4) && Within(binblocks, bit)
      ensures first <= idx < NAV && SearchFrom(sh, nb, idx) && block == Bit(idx / 4) && Marked(binblocks, idx / 4)
    {
      hide Core, SearchFrom, Hits, Bit, NextBlock, Within, NoBlock;
      idx, block := first, bit;
      while !Hits(binblocks, block)
        invariant first <= idx < NAV && idx % 4 == 0 && SearchFrom(sh, nb, idx) && block == Bit(idx / 4) && Within(binblocks, block)
        decreases NAV - idx
      {
        BitBelowMark(binblocks, idx / 4);
        SkipGroup(mem, sh, binblocks, nb, idx);
        idx := idx + 4;
        block := NextBlock(block);
        }
    }

    /** The bins of one group from idx on. */
    method ScanGroup(nb: int, first: int) returns (p: int, idx: int)
      requires Valid() && SearchFrom(sh, nb, first) && 4 <= first < NAV && sh.bins[LAST_REMAINDER] == []
      modifies `mem, `sh
      ensures p != 0 ==> BestFit(old(sh), p, nb) && Served(old(mem), old(sh), p, nb)
      ensures p == 0 ==> mem == old(mem) && sh == old(sh) && idx == first - first % 4 + 4 && SearchFrom(sh, nb, idx)
      ensures p == 0 ==> forall i :: first <= i < idx ==> sh.bins[i] == []
    {
      hide Core, Settled, SearchFrom, Served, BestFit;
      SearchBounds(sh, nb, first);
      idx := first;
      p := ScanBin(nb, idx);
      if p != 0 { return; }
      idx := first + 1;
      SkipEmpty(mem, sh, binblocks, nb, first, idx);
      while idx % 4 != 0
        invariant mem == old(mem) && sh == old(sh) && first < idx <= first - first % 4 + 4 && SearchFrom(sh, nb, idx)
        invariant forall i :: first <= i < idx ==> sh.bins[i] == []
        decreases NAV - idx
      {
        p := ScanBin(nb, idx);
        if p != 0 { return; }
        SkipEmpty(mem, sh, binblocks, nb, idx, idx + 1);
        idx := idx + 1;
      }
    }

    /** malloc's scan of the marked groups of bins. */
    method SearchBins(nb: int, start: int) returns (p: int)
      requires Valid() && SearchFrom(sh, nb, start) && start < NAV && sh.bins[LAST_REMAINDER] == []
      modifies `mem, `sh, `binblocks
      ensures p != 0 ==> BestFit(old(sh), p, nb) && Served(old(mem), old(sh), p, nb)
      ensures p == 0 ==> Valid() && mem == old(mem) && sh == old(sh) && forall q :: !Candidate(sh, q, nb)
    {
      hide Core, Settled, SearchFrom, Served, BestFit, Hits, Bit, NextBlock, Within, NoBlock;
      SearchBounds(sh, nb, start);
      var idx := start;
      var block := Bit(idx / 4);
      if !Within(binblocks, block) {
        SearchExhausted(mem, sh, binblocks, nb, idx);
        return 0;
      }
      if !Hits(binblocks, block) {
        BitBelowMark(binblocks, idx / 4);
        SkipGroup(mem, sh, binblocks, nb, idx);
        idx, block := NextMarked(nb, idx - idx % 4 + 4, NextBlock(block));
      }
      while true
        invariant Valid() && mem == old(mem) && sh == old(sh) && 4 <= idx < NAV && SearchFrom(sh, nb, idx) && block == Bit(idx / 4)
        decreases NAV - idx
      {
        var startIdx := idx;
        p, idx := ScanGroup(nb, startIdx);
        if p != 0 { return; }
        ClearGroup(startIdx, block);
        NextBlockBit(startIdx / 4);
        block := NextBlock(block);
        if NoBlock(block) {
          SearchOver(mem, sh, binblocks, nb);
          return 0;
        }
        if !Within(binblocks, block) {
          SearchExhausted(mem, sh, binblocks, nb, idx);
          return 0;
        }
        idx, block := NextMarked(nb, idx, block);
      }
    }

    /** malloc, before it turns to top: extend it when it is too small. */
    method EnsureTop(nb: int) returns (ok: bool)
      requires Valid() && nb % 8 == 0 && MINSIZE <= nb < TWO31
      modifies `mem, `top, `sbrkBase, `brk, `sh, `refusals
      ensures Valid() && Live(sh) == old(Live(sh)) && SameLive(old(mem), mem, old(sh)) && brk >= old(brk)
      ensures !ok ==> mem == old(mem) && sh == old(sh) && refusals > old(refusals) && TopTooSmall(sh, nb)
      ensures ok ==> top != INITIAL_TOP && top in sh.sz && nb + MINSIZE <= sh.sz[top] && ChunkSize(top) == sh.sz[top]
      ensures refusals >= old(refusals)
      ensures brk < old(brk) + Wanted(nb) && (brk != old(brk) ==> TopTooSmall(old(sh), nb))
    {
      hide Core, Settled, SameLive, Live, AsLong;
      ghost var m0, s0 := mem, sh;
      LiveRefl(mem, sh);
      if top != INITIAL_TOP { TopReads(mem, sh, binblocks); }
      TopInRange(nb);
      if AsLong(ChunkSize(top) - nb) < MINSIZE {
        ExtendTop(nb);
        if top != INITIAL_TOP { TopReads(mem, sh, binblocks); }
        LiveEqual(m0, mem, s0, sh);
      }
      TopInRange(nb);
      ok := AsLong(ChunkSize(top) - nb) >= MINSIZE;
    }

    /** malloc, last resort: the front of top, extended first when it is too small. */
    method TakeTop(nb: int) returns (p: int)
      requires Valid() && nb % 8 == 0 && MINSIZE <= nb < TWO31
      modifies `mem, `top, `sbrkBase, `brk, `sh, `refusals
      ensures p != 0 ==> HandedOut(old(mem), mem, old(sh), sh, binblocks, p, nb) && Sound()
      ensures p == 0 ==> Valid() && mem == old(mem) && sh == old(sh) && refusals > old(refusals)
      ensures p == 0 ==> TopTooSmall(sh, nb)
      ensures brk >= old(brk)
      ensures refusals >= old(refusals)
      ensures brk < old(brk) + Wanted(nb) && (brk != old(brk) ==> TopTooSmall(old(sh), nb))
    {
      hide Core, Settled, SameLive, Live, HandedOut, CarveWrites;
      ghost var m0, s0 := mem, sh;
      var ok := EnsureTop(nb);
      if !ok {
        return 0;
      }
      ghost var m1, s1 := mem, sh;
      ghost var t := TopTake(mem, sh, binblocks, nb);
      var remainderSize := ChunkSize(top) - nb;
      p := top;
      mem := CarveWrites(mem, p, nb + 1, p + nb, remainderSize + 1);
      top := p + nb;
      sh := t;
      HandedOutChain(m0, m1, mem, s0, s1, sh, binblocks, p, nb);
      HandedOutSize(m1, mem, s1, sh, binblocks, p, nb);
    }

    /** malloc: exact fits in the request's own bins. */
    method TryExact(nb: int) returns (p: int, idx: int)
      requires Valid() && MINSIZE <= nb && nb % 8 == 0
      modifies `mem, `sh
      ensures p == 0 ==> mem == old(mem) && sh == old(sh) && SearchFrom(sh, nb, idx) && idx < NAV && NoExact(sh, nb)
      ensures p != 0 ==> BestFit(old(sh), p, nb) && Served(old(mem), old(sh), p, nb) && !NoExact(old(sh), nb)
    {
      hide Core, Settled, SameLive, Live, HandedOut, SearchFrom, BestFit, NoExact;
      if nb < MAX_SMALLBIN_SIZE - 8 {
        p := SmallExact(nb);
        idx := nb / 8 + 2;
      } else {
        p, idx := LargeExact(nb);
      }
      if p != 0 {
        BestIsBinned(old(sh), p, nb);
        HandedOutSize(old(mem), mem, old(sh), sh, binblocks, p, old(sh).sz[p]);
      }
    }

    /** malloc: the bins and the last remainder. */
    method TryBins(nb: int) returns (p: int, ghost origin: Origin)
      requires Valid() && MINSIZE <= nb && nb % 8 == 0
      modifies `mem, `sh, `binblocks
      ensures p != 0 ==> Served(old(mem), old(sh), p, nb)
      ensures origin == FromBin ==> BestFit(old(sh), p, nb)
      ensures origin == FromRemainder ==> p in old(sh).at && old(sh).at[p] == LAST_REMAINDER && NoExact(old(sh), nb)
      ensures origin == FromBin && NoExact(old(sh), nb) ==> RemainderSmall(old(sh), nb)
      ensures origin == if p == 0 then Nowhere else if p in old(sh).at && old(sh).at[p] == LAST_REMAINDER then FromRemainder else FromBin
      ensures p == 0 ==> Valid() && NothingFits(old(sh), nb) && sh.sz == old(sh).sz && Live(sh) == old(Live(sh)) && SameLive(old(mem), mem, old(sh))
    {
      hide Core, Settled, SameLive, Live, HandedOut, SearchFrom, BestFit, NothingFits, NoExact, RemainderSmall;
      ghost var m0, s0 := mem, sh;
      var idx;
      p, idx := TryExact(nb);
      if p != 0 {
        BestIsBinned(s0, p, nb);
        return p, FromBin;
      }
      p := TryRemainder(nb, idx);
      if p != 0 {
        HandedOutSize(m0, mem, s0, sh, binblocks, p, sh.sz[p]);
        return p, FromRemainder;
      }
      RemainderIsSmall(s0, sh, nb);
      ghost var m1, s1 := mem, sh;
      p := SearchBins(nb, idx);
      if p == 0 {
        NothingLeft(s0, s1, nb);
        return 0, Nowhere;
      }
      HandedOutChain(m0, m1, mem, s0, s1, sh, binblocks, p, sh.sz[p]);
      SameBest(s0, s1, p, nb);
      BestIsBinned(s0, p, nb);
      return p, FromBin;
    }

    /** malloc() */
    method Malloc(bytes: nat) returns (r: int, ghost origin: Origin)
      requires Valid() && bytes < TWO32
      modifies this
      ensures Valid() && brk >= old(brk)
      ensures AsLong(bytes) < 0 ==> r == 0 && mem == old(mem) && sh == old(sh)
      ensures r != 0 ==>
                && r % ALIGNMENT == 0 && r - 8 in sh.sz
                && Request2Size(bytes) <= sh.sz[r - 8] < Request2Size(bytes) + MINSIZE
                && HandedOut(old(mem), mem, old(sh), sh, binblocks, r - 8, sh.sz[r - 8])
      ensures r == 0 <==> origin == Nowhere
      ensures origin == FromBin ==> BestFit(old(sh), r - 8, Request2Size(bytes))
      ensures origin == FromRemainder ==> r - 8 in old(sh).at && old(sh).at[r - 8] == LAST_REMAINDER && NoExact(old(sh), Request2Size(bytes))
      ensures origin == FromBin && NoExact(old(sh), Request2Size(bytes)) ==> RemainderSmall(old(sh), Request2Size(bytes))
      ensures origin == FromTop ==> NothingFits(old(sh), Request2Size(bytes))
      ensures r == 0 ==> Live(sh) == old(Live(sh)) && SameLive(old(mem), mem, old(sh))
      ensures r == 0 && AsLong(bytes) >= 0 ==> refusals > old(refusals) && NothingFits(old(sh), Request2Size(bytes))
      ensures r == 0 && AsLong(bytes) >= 0 ==> TopTooSmall(old(sh), Request2Size(bytes))
      ensures refusals >= old(refusals)
      ensures brk != old(brk) ==> NothingFits(old(sh), Request2Size(bytes)) && TopTooSmall(old(sh), Request2Size(bytes)) && brk < old(brk) + Wanted(Request2Size(bytes))
    {
      hide Core, Settled, SameLive, Live, HandedOut, BestFit, NothingFits, Request2Size, NoExact, RemainderSmall;
      ghost var m0, s0 := mem, sh;
      LiveRefl(mem, sh);
      if AsLong(bytes) < 0 {
        return 0, Nowhere;
      }
      var nb := Request2Size(bytes);
      RoomWraps(bytes);
      var p;
      p, origin := TryBins(nb);
      if p == 0 {
        ghost var m1, s1 := mem, sh;
        p := TakeTop(nb);
        if p == 0 {
          return 0, Nowhere;
        }
        HandedOutChain(m0, m1, mem, s0, s1, sh, binblocks, p, nb);
        HandedOutSize(m0, mem, s0, sh, binblocks, p, nb);
        return p + 8, FromTop;
      }
      HandedOutSize(m0, mem, s0, sh, binblocks, p, sh.sz[p]);
      r := p + 8;
    }

    /** MALLOC_COPY: whole words in ascending order. */
    method Copy(dst: int, src: int, n: int)
      requires n % 4 == 0 && n >= 0 && (dst <= src || src + n <= dst)
      modifies `mem
      ensures Copied(old(mem), mem, src, dst, n)
    {
      hide Copied;
      CopyNothing(mem, src, dst);
      var i := 0;
      while i < n
        invariant 0 <= i <= n && i % 4 == 0 && Copied(old(mem), mem, src, dst, i)
      {
        CopyStep(old(mem), mem, src, dst, i, n);
        mem := mem[dst + i := mem[src + i]];
        i := i + 4;
      }
    }

    /** All of the heap but chunk p's own size word and the in-use bit behind it is in order. */
    ghost predicate Pending(p: int, size: int)
      reads this
    {
      && Core(Patched(mem, p, size), sh, binblocks) && Settled(sh) && p in sh.used && p in sh.sz && sh.sz[p] == size
      && sh.top == top && BINS_END <= brk <= limit && InRange() && top in sh.sz && top + sh.sz[top] == brk && sbrkBase != -1
    }

    /** What an attempt to extend p leaves, by outcome. */
    ghost predicate Attempted(a: Attempt, m0: Mem, s0: Shape, p: int, nb: int)
      reads this
    {
      match a
      case Stuck => Valid() && mem == m0 && sh == s0
      case Done(q) => Valid() && Resized(m0, mem, Live(s0), Live(sh), p, q, nb) && q != 0 && q in sh.sz && sh.sz[q] == nb
      case ToSplit(q, size) => Pending(q, size) && Resized(m0, Patched(mem, q, size), Live(s0), Live(sh), p, q, size) && nb <= size && q != 0
    }

    /** realloc: p grows over the front of top. */
    method GrowIntoTop(p: int, nb: int)
      requires Valid() && p in sh.used && p in sh.sz && Next(sh.sz, p) == top && top in sh.sz && nb % 8 == 0
      requires sh.sz[p] < nb && nb + MINSIZE <= sh.sz[p] + sh.sz[top]
      modifies `mem, `sh, `top
      ensures Attempted(Done(p), old(mem), old(sh), p, nb)
    {
      hide Core, Settled, Live, Resized, IntoTopWrites;
      HeadReads(mem, sh, binblocks, p);
      HeadReads(mem, sh, binblocks, top);
      ghost var t := IntoTopResizes(mem, sh, binblocks, p, nb);
      mem := IntoTopWrites(mem, p, nb, ChunkSize(p) + ChunkSize(top) - nb);
      top := p + nb;
      sh := t;
    }

    /** realloc: p takes the free chunk behind it. */
    method GrowForward(p: int, size: int, next: int, nextsize: int, nb: int)
      requires Valid() && p in sh.used && p in sh.sz && size == sh.sz[p] && next == Next(sh.sz, p) && next in sh.at && next in sh.sz
      requires nextsize == sh.sz[next] && nb <= size + nextsize
      modifies `mem, `sh
      ensures Attempted(ToSplit(p, size + nextsize), old(mem), old(sh), p, nb)
    {
      hide Core, Settled, Live, Resized, Patched, UnlinkWrites, Extended;
      SizeAtLeast(mem, sh, binblocks, p);
      WordsToCopy(mem, sh, binblocks, p);
      ghost var t := ForwardExtends(mem, sh, binblocks, p);
      Unlink(next);
      InExtended(old(mem), Patched(mem, p, size + nextsize), old(sh), t, binblocks, p, p, size + nextsize);
      sh := t;
    }

    /** The one state in which realloc goes wrong: the chunk borders top, and the comparison with
        nb + MINSIZE wraps. */
    ghost predicate Overruns(p: int, nb: int)
      reads this
    {
      p in sh.sz && Next(sh.sz, p) == top && sh.sz[p] < nb && nb + MINSIZE >= TWO31
    }

    /** In that state the test succeeds whatever room there is, and the new top that the code sets
        lies beyond all memory there will ever be. */
    lemma OverrunsWrites(p: int, nb: int)
      requires Valid() && p in sh.used && Overruns(p, nb) && nb < TWO31
      ensures RoomPasses(ChunkSize(top) + sh.sz[p], nb) && ChunkSize(top) + sh.sz[p] < nb + MINSIZE
      ensures p + nb > limit
    {
      ChunkInRange(p);
      ChunkInRange(top);
      HeadReads(mem, sh, binblocks, top);
      hide Core, Settled;
      RoomPassesExactly(ChunkSize(top) + sh.sz[p], nb);
    }

    /** realloc, forward: into top if a remainder stays there, or over a following free chunk. */
    method TryForward(p: int, size: int, nb: int) returns (a: Attempt, next: int, nextsize: int)
      requires Valid() && p in sh.used && p in sh.sz && size == sh.sz[p] < nb < TWO31 && nb % 8 == 0 && !Overruns(p, nb)
      modifies `mem, `sh, `top
      ensures Attempted(a, old(mem), old(sh), p, nb)
      ensures a.Stuck? <==> !FitsForward(old(sh), p, nb)
      ensures !a.Stuck? ==> a.chunk == p
      ensures a.Stuck? ==> Behind(p, size, next, nextsize) && top == old(top)
    {
      hide Core, Settled, Live, Attempted, RoomPasses, AsLong;
      CoreChunks(mem, sh, binblocks);
      UsedFacts(sh, p);
      ForwardFacts(mem, sh, binblocks, p);
      NotAttempted(p, nb);
      ChunkInRange(p);
      next := p + size;
      nextsize := 0;
      RoomForward(p, nb);
      if next == top || mem[next + (mem[next + SIZE] - mem[next + SIZE] % 2) + SIZE] % 2 == 0 {
        nextsize := ChunkSize(next);
        if next == top {
          if RoomPasses(nextsize + size, nb) {
            GrowIntoTop(p, nb);
            return Done(p), next, nextsize;
          }
        } else if AsLong(nextsize + size) >= AsLong(nb) {
          GrowForward(p, size, next, nextsize, nb);
          return ToSplit(p, size + nextsize), next, nextsize;
        }
      } else {
        next := 0;
      }
      return Stuck, next, nextsize;
    }

    /** Room forward is a positive long, and the test for it exact. */
    lemma RoomForward(p: int, nb: int)
      requires Valid() && p in sh.sz && p != top && MINSIZE <= nb < TWO31
      ensures var next := Next(sh.sz, p);
              && next in sh.sz && AsLong(nb) == nb
              && var room := sh.sz[next] + sh.sz[p];
                 AsLong(room) == room && (sh.sz[p] < nb && !Overruns(p, nb) && next == top ==> (RoomPasses(room, nb) <==> room >= nb + MINSIZE))
    {
      hide *;
      EndsInRange(p);
      PassesExactly(p, nb);
      RoomTest(sh.sz[Next(sh.sz, p)] + sh.sz[p], nb);
    }

    lemma PassesExactly(p: int, nb: int)
      requires p in sh.sz
      ensures sh.sz[p] < nb && !Overruns(p, nb) && Next(sh.sz, p) == top ==> nb + MINSIZE < TWO31
    {
      hide Next;
    }

    /** The same with the free chunk before it. */
    lemma RoomBackward(p: int, prev: int, next: int, nb: int)
      requires Valid() && p in sh.sz && p != top && prev in sh.sz && prev + sh.sz[prev] == p && MINSIZE <= nb < TWO31
      requires next == 0 || next == Next(sh.sz, p)
      ensures AsLong(nb) == nb && AsLong(sh.sz[prev] + sh.sz[p]) == sh.sz[prev] + sh.sz[p]
      ensures next != 0 ==> next in sh.sz && var room := sh.sz[next] + sh.sz[prev] + sh.sz[p];
              AsLong(room) == room && (sh.sz[p] < nb && !Overruns(p, nb) && next == top ==> (RoomPasses(room, nb) <==> room >= nb + MINSIZE))
    {
      hide *;
      EndsInRange(p);
      BackInRange(p, prev);
      PassesExactly(p, nb);
      RoomTest(sh.sz[prev] + sh.sz[p], nb);
      if next != 0 { RoomTest(sh.sz[next] + sh.sz[prev] + sh.sz[p], nb); }
    }

    lemma EndsInRange(p: int)
      requires Valid() && p in sh.sz && p != top
      ensures var next := Next(sh.sz, p);
              next in sh.sz && 0 <= sh.sz[p] && 0 <= sh.sz[next] && sh.sz[next] + sh.sz[p] <= next + sh.sz[next] < TWO31
    {
      CoreParts(mem, sh, binblocks);
      NextChunk(sh, p);
      ChunkInRange(p);
      ChunkInRange(Next(sh.sz, p));
      hide Valid, Core, Settled, Tiled, Placed;
    }

    lemma BackInRange(p: int, prev: int)
      requires Valid() && p in sh.sz && prev in sh.sz && prev + sh.sz[prev] == p
      ensures 0 <= sh.sz[prev] && sh.sz[prev] + sh.sz[p] < TWO31
      ensures Next(sh.sz, p) in sh.sz ==> sh.sz[Next(sh.sz, p)] + sh.sz[prev] + sh.sz[p] < TWO31
    {
      ChunkInRange(p);
      ChunkInRange(prev);
      if Next(sh.sz, p) in sh.sz { ChunkInRange(Next(sh.sz, p)); }
      hide Valid, Core, Settled, Tiled, Placed;
    }

    lemma NotAttempted(p: int, nb: int)
      requires Valid()
      ensures Attempted(Stuck, mem, sh, p, nb)
    {
    }

    /** What realloc remembers about the chunk behind p: zero when it is in use. */
    ghost predicate Behind(p: int, size: int, next: int, nextsize: int)
      reads this
    {
      if next == 0 then nextsize == 0 && top != 0 && p + size in sh.used
      else next == p + size && next in sh.sz && next !in sh.used && nextsize == sh.sz[next] && (next != top ==> next in sh.at)
    }

    /** realloc: p and the free chunk before it grow over the front of top. */
    method ShiftIntoTop(p: int, size: int, prev: int, prevsize: int, nextsize: int, nb: int)
      requires Valid() && p in sh.used && p in sh.sz && size == sh.sz[p] < nb && Next(sh.sz, p) == top && top in sh.sz && PrevInUse(sh, p) == 0
      requires p in sh.prv && prev == sh.prv[p] && prev in sh.sz && prevsize == sh.sz[prev] && nextsize == sh.sz[top] && prev + prevsize == p && prev < p && prev in sh.at
      requires nb % 8 == 0 && nb + MINSIZE <= prevsize + size + nextsize
      modifies `mem, `sh, `top
      ensures Attempted(Done(prev), old(mem), old(sh), p, nb)
    {
      hide Core, Settled, Live, Resized, UnlinkWrites, IntoTopWrites, PrevInUse, Copied;
      SizeAtLeast(mem, sh, binblocks, prev);
      SizeAtLeast(mem, sh, binblocks, p);
      WordsToCopy(mem, sh, binblocks, p);
      Unlink(prev);
      Copy(prev + 8, p + 8, size - 4);
      ghost var t := BackTopResizes(old(mem), mem, old(sh), binblocks, p, nb);
      mem := IntoTopWrites(mem, prev, nb, prevsize + size + nextsize - nb);
      top := prev + nb;
      sh := t;
    }

    /** realloc: p joined with the free chunks on both sides. */
    method ShiftBoth(p: int, size: int, prev: int, prevsize: int, next: int, nextsize: int, nb: int)
      requires Valid() && p in sh.used && p in sh.sz && size == sh.sz[p] && PrevInUse(sh, p) == 0
      requires next == Next(sh.sz, p) && next in sh.at && next in sh.sz && nextsize == sh.sz[next]
      requires p in sh.prv && prev == sh.prv[p] && prev in sh.sz && prevsize == sh.sz[prev] && prev < p && nb <= prevsize + size + nextsize
      modifies `mem, `sh
      ensures Attempted(ToSplit(prev, prevsize + size + nextsize), old(mem), old(sh), p, nb)
    {
      hide Core, Settled, Live, Resized, Patched, UnlinkWrites, Extended, PrevInUse, Copied, SameLive;
      SizeAtLeast(mem, sh, binblocks, prev);
      SizeAtLeast(mem, sh, binblocks, next);
      SizeAtLeast(mem, sh, binblocks, p);
      WordsToCopy(mem, sh, binblocks, p);
      ghost var s0 := sh;
      ghost var t := BothExtends(mem, sh, binblocks, p);
      Unlink(next);
      Unlink(prev);
      ghost var m1 := mem;
      Copy(prev + 8, p + 8, size - 4);
      ShiftCompletes(old(mem), m1, mem, s0, t, binblocks, p, prev, prevsize + size + nextsize);
      InExtended(old(mem), Patched(m1, prev, prevsize + size + nextsize), s0, t, binblocks, p, prev, prevsize + size + nextsize);
      sh := t;
    }

    /** realloc: p joined with the free chunk before it. */
    method ShiftBack(p: int, size: int, prev: int, prevsize: int, nb: int)
      requires Valid() && p in sh.used && p in sh.sz && size == sh.sz[p] && PrevInUse(sh, p) == 0
      requires p in sh.prv && prev == sh.prv[p] && prev in sh.sz && prevsize == sh.sz[prev] && prev < p && nb <= prevsize + size
      modifies `mem, `sh
      ensures Attempted(ToSplit(prev, prevsize + size), old(mem), old(sh), p, nb)
    {
      hide Core, Settled, Live, Resized, Patched, UnlinkWrites, Extended, PrevInUse, Copied, SameLive;
      SizeAtLeast(mem, sh, binblocks, prev);
      SizeAtLeast(mem, sh, binblocks, p);
      WordsToCopy(mem, sh, binblocks, p);
      ghost var s0 := sh;
      ghost var t := AbsorbExtends(mem, sh, binblocks, p);
      Unlink(prev);
      ghost var m1 := mem;
      Copy(prev + 8, p + 8, size - 4);
      ShiftCompletes(old(mem), m1, mem, s0, t, binblocks, p, prev, prevsize + size);
      InExtended(old(mem), Patched(m1, prev, prevsize + size), s0, t, binblocks, p, prev, prevsize + size);
      sh := t;
    }

    /** The sums that realloc compares with nb once the chunk before p is known to be free. */
    lemma BackwardTest(p: int, size: int, next: int, nextsize: int, nb: int)
      requires Valid() && p in sh.sz && size == sh.sz[p] && Behind(p, size, next, nextsize)
      requires PrevInUse(sh, p) == 0 && p in sh.prv && sh.prv[p] in sh.sz
      ensures var prevsize := sh.sz[sh.prv[p]];
              FitsBackward(sh, p, nb) <==>
                prevsize + size >= nb || (next != 0 && nextsize + prevsize + size >= if next == top then nb + MINSIZE else nb)
      ensures next != 0 ==> next == Next(sh.sz, p) && next in sh.sz && nextsize == sh.sz[next] && (next != top ==> next in sh.at)
    {
      hide Core, Settled, PrevInUse, FitsBackward;
      RoomBefore(sh, p, nb);
    }

    /** realloc, backward: over a preceding free chunk, together with what follows where that helps. */
    method TryBackward(p: int, size: int, nb: int, next: int, nextsize: int) returns (a: Attempt)
      requires Valid() && p in sh.used && p in sh.sz && size == sh.sz[p] < nb < TWO31 && nb % 8 == 0 && Behind(p, size, next, nextsize)
      requires !Overruns(p, nb)
      modifies `mem, `sh, `top
      ensures Attempted(a, old(mem), old(sh), p, nb)
      ensures a.Stuck? <==> !FitsBackward(old(sh), p, nb)
      ensures !a.Stuck? ==> p in old(sh).prv && a.chunk == old(sh).prv[p]
    {
      hide Core, Settled, Live, Attempted, PrevInUse, Off, RoomPasses, AsLong;
      CoreChunks(mem, sh, binblocks);
      UsedFacts(sh, p);
      HeadReads(mem, sh, binblocks, p);
      NotAttempted(p, nb);
      if mem[p + SIZE] % 2 != 0 {
        NoRoomBefore(sh, p, nb);
        return Stuck;
      }
      PrevReady(mem, sh, binblocks, p);
      BackwardTest(p, size, next, nextsize, nb);
      hide FitsBackward, FitsForward, Behind, Overruns;
      var prev := p - mem[p];
      HeadReads(mem, sh, binblocks, prev);
      var prevsize := ChunkSize(prev);
      RoomBackward(p, prev, next, nb);
      if next != 0 {
        if next == top {
          if RoomPasses(nextsize + prevsize + size, nb) {
            ShiftIntoTop(p, size, prev, prevsize, nextsize, nb);
            return Done(prev);
          }
        } else if AsLong(nextsize + prevsize + size) >= AsLong(nb) {
          ShiftBoth(p, size, prev, prevsize, next, nextsize, nb);
          return ToSplit(prev, prevsize + size + nextsize);
        }
      }
      if AsLong(prevsize + size) >= AsLong(nb) {
        ShiftBack(p, size, prev, prevsize, nb);
        return ToSplit(prev, prevsize + size);
      }
      return Stuck;
    }

    /** The end of realloc: the room beyond nb bytes is split off and freed if it can be a chunk. */
    method FinishSplit(p: int, newsize: int, nb: int) returns (ghost size: int)
      requires Pending(p, newsize) && nb % 8 == 0 && MINSIZE <= nb <= newsize && p != 0
      modifies this
      ensures Valid() && nb <= size < nb + MINSIZE && size <= newsize
      ensures Live(sh) == old(Live(sh))[p := size] && p in sh.sz && sh.sz[p] == size
      ensures SameLive(Patched(old(mem), p, newsize), mem, sh) && brk <= old(brk)
      ensures refusals >= old(refusals)
    {
      hide Core, Settled, Live, SameLive, Patched, SplitTailWrites, CarveWrites;
      ghost var m1, s1 := Patched(mem, p, newsize), sh;
      HeadReads(m1, sh, binblocks, p);
      HeadReads(m1, sh, binblocks, top);
      if newsize - nb >= MINSIZE {
        ghost var t := CutUsed(m1, sh, binblocks, p, nb);
        SplitTailIs(mem, p, nb, newsize);
        mem := SplitTailWrites(mem, p, nb, newsize);
        sh := t;
        size := nb;
        ghost var m2, s2 := mem, sh;
        Free(p + nb + 8);
        LiveChain(m1, m2, mem, s2, sh);
        CutThenFreed(Live(s1), p, nb, p + nb, newsize - nb);
        LiveHas(sh, p, nb);
      } else {
        LiveRefl(m1, sh);
        mem := Patched(mem, p, newsize);
        size := newsize;
        LiveKeeps(sh, p, newsize);
      }
    }

    /** A resize that still lacks its final split, completed. */
    method CompleteSplit(p: int, newsize: int, nb: int, ghost m0: Mem, ghost live0: LiveMap, ghost p0: int) returns (r: int)
      requires Pending(p, newsize) && nb % 8 == 0 && MINSIZE <= nb <= newsize && p != 0
      requires Resized(m0, Patched(mem, p, newsize), live0, Live(sh), p0, p, newsize)
      modifies this
      ensures Valid() && r == p + 8 && Reallocated(m0, live0, p0, p, nb)
      ensures refusals >= old(refusals)
    {
      hide Core, Settled, Live, SameLive, Patched, Resized, SameIn;
      ghost var m1, s1 := Patched(mem, p, newsize), sh;
      ghost var size := FinishSplit(p, newsize, nb);
      SameLiveIn(m1, mem, sh);
      ResizedLess(m0, m1, mem, live0, Live(s1), Live(sh), p0, p, newsize, size);
      HeadReads(mem, sh, binblocks, p);
      r := p + 8;
    }

    /** Live chunk p0 has become q, of at least nb bytes, with its data. */
    ghost predicate Reallocated(m0: Mem, live0: LiveMap, p0: int, q: int, nb: int)
      reads this
    {
      && q in sh.sz && q % ALIGNMENT == 0 && q != -8 && nb <= sh.sz[q] < nb + MINSIZE
      && Resized(m0, mem, live0, Live(sh), p0, q, sh.sz[q])
    }

    /** realloc: the new chunk lies right behind the old one, so the two become one. */
    method MergeBehind(p: int, newp: int, nb: int, ghost m0: Mem, ghost s0: Shape) returns (r: int)
      requires Sound() && newp in sh.sz && HandedOut(m0, mem, s0, sh, binblocks, newp, sh.sz[newp])
      requires p in s0.used && p in s0.sz && s0.used <= s0.sz.Keys && newp == p + s0.sz[p] && nb % 8 == 0 && MINSIZE <= nb <= sh.sz[newp]
      modifies this
      ensures Valid() && r == p + 8 && Reallocated(m0, Live(s0), p, p, nb)
      ensures refusals >= old(refusals)
    {
      hide Core, Settled, Live, SameLive, Patched, Resized, HandedOut;
      StillLive(m0, mem, s0, sh, binblocks, newp, sh.sz[newp], p);
      HandedOutSize(m0, mem, s0, sh, binblocks, newp, sh.sz[newp]);
      SizeAtLeast(mem, sh, binblocks, p);
      HeadReads(mem, sh, binblocks, p);
      HeadReads(mem, sh, binblocks, newp);
      ghost var t := MergeExtends(m0, mem, s0, sh, binblocks, p, newp, sh.sz[newp]);
      var newsize := ChunkSize(p) + ChunkSize(newp);
      sh := t;
      r := CompleteSplit(p, newsize, nb, m0, Live(s0), p);
    }

    /** realloc: the data copied to the new chunk and the old one freed. */
    method CopyAndFree(p: int, size: int, newp: int, ghost m0: Mem, ghost s0: Shape)
      requires Valid() && newp in sh.sz && HandedOut(m0, mem, s0, sh, binblocks, newp, sh.sz[newp])
      requires p in s0.used && p in s0.sz && size == s0.sz[p] <= sh.sz[newp]
      modifies this
      ensures Valid() && newp in sh.sz && sh.sz[newp] == old(sh.sz[newp]) && newp in sh.used
      ensures Resized(m0, mem, Live(s0), Live(sh), p, newp, sh.sz[newp])
      ensures refusals >= old(refusals)
    {
      hide Core, Settled, Live, SameLive, Resized, SameIn, HandedOut, Copied, Carried;
      ghost var m1, s1, b1 := mem, sh, binblocks;
      StillLive(m0, mem, s0, sh, binblocks, newp, sh.sz[newp], p);
      WordsToCopy(mem, sh, binblocks, p);
      FreshIsApart(sh, p, newp);
      Copy(newp + 8, p + 8, size - 4);
      ghost var mc := mem;
      MovedByCopy(m0, m1, mc, s0, s1, binblocks, p, newp, s1.sz[newp]);
      Free(p + 8);
      MovedLiveResizes(m0, m1, mc, mem, s0, s1, sh, b1, p, newp, s1.sz[newp]);
      MovedHas(m0, mem, Live(s0), sh, p, newp, s1.sz[newp]);
    }

    /** realloc's last resort: a new chunk, merged with the old one when it lies right behind it,
        else the data copied and the old chunk freed. */
    method MoveChunk(p: int, size: int, bytes: nat) returns (r: int)
      requires bytes < TWO31 && Valid() && p in sh.used && p in sh.sz && size == sh.sz[p] < Request2Size(bytes)
      modifies this
      ensures Valid()
      ensures r == 0 ==> Live(sh) == old(Live(sh)) && SameLive(old(mem), mem, old(sh))
      ensures r == 0 && AsLong(bytes) >= 0 ==> refusals > old(refusals) && NothingFits(old(sh), Request2Size(bytes)) && TopTooSmall(old(sh), Request2Size(bytes))
      ensures r != 0 ==> Reallocated(old(mem), old(Live(sh)), p, r - 8, Request2Size(bytes))
      ensures refusals >= old(refusals)
    {
      hide Core, Settled, Live, SameLive, Resized, HandedOut, Request2Size, BestFit, NothingFits, TopTooSmall;
      ghost var m0, s0 := mem, sh;
      CoreChunks(mem, sh, binblocks);
      ghost var origin;
      r, origin := Malloc(bytes);
      if r == 0 {
        return;
      }
      var newp := r - 8;
      StillLive(m0, mem, s0, sh, binblocks, newp, sh.sz[newp], p);
      HeadReads(mem, sh, binblocks, p);
      if newp == p + (mem[p + SIZE] - mem[p + SIZE] % 2) {
        r := MergeBehind(p, newp, Request2Size(bytes), m0, s0);
      } else {
        CopyAndFree(p, size, newp, m0, s0);
      }
    }

    lemma StuckIsValid(a: Attempt, m0: Mem, s0: Shape, p: int, nb: int)
      requires a.Stuck? && Attempted(a, m0, s0, p, nb)
      ensures Valid() && mem == m0 && sh == s0
    {
    }

    lemma DoneIsReallocated(a: Attempt, m0: Mem, s0: Shape, p: int, nb: int)
      requires a.Done? && Attempted(a, m0, s0, p, nb)
      ensures Valid() && Reallocated(m0, Live(s0), p, a.chunk, nb) && a.chunk + 8 != 0 && a.chunk % ALIGNMENT == 0
    {
      hide Core, Settled, Live, Resized;
      HeadReads(mem, sh, binblocks, a.chunk);
    }

    lemma ToSplitIsPending(a: Attempt, m0: Mem, s0: Shape, p: int, nb: int)
      requires a.ToSplit? && Attempted(a, m0, s0, p, nb)
      ensures Pending(a.chunk, a.size) && Resized(m0, Patched(mem, a.chunk, a.size), Live(s0), Live(sh), p, a.chunk, a.size)
      ensures nb <= a.size && a.chunk != 0
    {
    }

    lemma InUseIsPending(p: int, size: int)
      requires Valid() && p in sh.used && p in sh.sz && size == sh.sz[p]
      ensures Pending(p, size) && Resized(mem, Patched(mem, p, size), Live(sh), Live(sh), p, p, size)
    {
      hide Core, Settled, Patched, Resized;
      HeadReads(mem, sh, binblocks, p);
      PatchedSame(mem, sh, binblocks, p);
      InLive(sh, p);
      hide Live;
      ResizedToSame(mem, Live(sh), p);
    }

    /** Where the data of p is when it has been given room for nb bytes without a new chunk: where it was
        if possible, or at the start of the free chunk before. */
    ghost predicate Stretched(s: Shape, p: int, nb: int, q: int)
    {
      if FitsForward(s, p, nb) then q == p else FitsBackward(s, p, nb) && q == s.prv[p]
    }

    /** realloc: extending the chunk where it is, forward first. */
    method TryExtend(p: int, size: int, nb: int) returns (a: Attempt)
      requires Valid() && p in sh.used && p in sh.sz && size == sh.sz[p] < nb < TWO31 && nb % 8 == 0 && !Overruns(p, nb)
      modifies `mem, `sh, `top
      ensures Attempted(a, old(mem), old(sh), p, nb)
      ensures a.Stuck? <==> !FitsForward(old(sh), p, nb) && !FitsBackward(old(sh), p, nb)
      ensures !a.Stuck? ==> Stretched(old(sh), p, nb, a.chunk)
    {
      hide Core, Settled, Attempted, FitsForward, FitsBackward;
      var next, nextsize;
      a, next, nextsize := TryForward(p, size, nb);
      if a.Stuck? {
        StuckIsValid(a, old(mem), old(sh), p, nb);
        a := TryBackward(p, size, nb, next, nextsize);
      }
    }

    /** realloc of a chunk in use. */
    method Resize(p: int, bytes: nat) returns (r: int)
      requires bytes < TWO31 && Valid() && p in sh.used && p in sh.sz && !Overruns(p, Request2Size(bytes))
      modifies this
      ensures Valid()
      ensures r == 0 ==> Live(sh) == old(Live(sh)) && SameLive(old(mem), mem, old(sh))
      ensures r != 0 ==> Reallocated(old(mem), old(Live(sh)), p, r - 8, Request2Size(bytes))
      ensures Kept(old(sh), p, Request2Size(bytes)) ==> r == p + 8
      ensures !Kept(old(sh), p, Request2Size(bytes)) && FitsBackward(old(sh), p, Request2Size(bytes)) ==> r == old(sh).prv[p] + 8
      ensures r == 0 ==> refusals > old(refusals) && NothingFits(old(sh), Request2Size(bytes)) && TopTooSmall(old(sh), Request2Size(bytes))
      ensures r == 0 ==> !Kept(old(sh), p, Request2Size(bytes)) && !FitsBackward(old(sh), p, Request2Size(bytes))
      ensures refusals >= old(refusals)
    {
      hide Core, Settled, Live, SameLive, Patched, Resized, Request2Size, Attempted, NothingFits, TopTooSmall, FitsForward, FitsBackward;
      HeadReads(mem, sh, binblocks, p);
      var size := ChunkSize(p);
      var nb := Request2Size(bytes);
      RoomWraps(bytes);
      ghost var m0, s0 := mem, sh;
      if size < nb {
        var a := TryExtend(p, size, nb);
        if a.Stuck? {
          StuckIsValid(a, m0, s0, p, nb);
          r := MoveChunk(p, size, bytes);
        } else if a.Done? {
          DoneIsReallocated(a, m0, s0, p, nb);
          r := a.chunk + 8;
        } else {
          ToSplitIsPending(a, m0, s0, p, nb);
          r := CompleteSplit(a.chunk, a.size, nb, m0, Live(s0), p);
        }
      } else {
        InUseIsPending(p, size);
        r := CompleteSplit(p, size, nb, m0, Live(s0), p);
      }
    }

    /** realloc leaves the data where it is. */
    ghost predicate Kept(s: Shape, p: int, nb: int)
    {
      p in s.sz && (s.sz[p] >= nb || FitsForward(s, p, nb))
    }

    /** The request does not run into the comparison that wraps. */
    ghost predicate Withstands(ptr: int, bytes: nat)
      requires bytes < TWO32
      reads this
    {
      ptr != 0 && AsLong(bytes) >= 0 ==> !Overruns(ptr - 8, Request2Size(bytes))
    }

    /** realloc() */
    method Realloc(ptr: int, bytes: nat) returns (r: int)
      requires Valid() && bytes < TWO32 && (ptr != 0 ==> ptr - 8 in sh.used)
      requires Withstands(ptr, bytes)
      modifies this
      ensures Valid()
      ensures AsLong(bytes) < 0 ==> r == 0 && mem == old(mem) && sh == old(sh)
      ensures r == 0 ==> Live(sh) == old(Live(sh)) && SameLive(old(mem), mem, old(sh))
      ensures r != 0 ==> r % ALIGNMENT == 0 && r - 8 in sh.sz && Request2Size(bytes) <= sh.sz[r - 8] < Request2Size(bytes) + MINSIZE
      ensures r != 0 && ptr == 0 ==> HandedOut(old(mem), mem, old(sh), sh, binblocks, r - 8, sh.sz[r - 8])
      ensures r != 0 && ptr != 0 ==> Resized(old(mem), mem, old(Live(sh)), Live(sh), ptr - 8, r - 8, sh.sz[r - 8])
      ensures r == 0 && AsLong(bytes) >= 0 ==>
                && refusals > old(refusals) && NothingFits(old(sh), Request2Size(bytes)) && TopTooSmall(old(sh), Request2Size(bytes))
                && (ptr != 0 ==> !Kept(old(sh), ptr - 8, Request2Size(bytes)) && !FitsBackward(old(sh), ptr - 8, Request2Size(bytes)))
      ensures ptr != 0 && AsLong(bytes) >= 0 && Kept(old(sh), ptr - 8, Request2Size(bytes)) ==> r == ptr
      ensures ptr != 0 && AsLong(bytes) >= 0 && !Kept(old(sh), ptr - 8, Request2Size(bytes)) && FitsBackward(old(sh), ptr - 8, Request2Size(bytes)) ==>
                r == old(sh).prv[ptr - 8] + 8
      ensures refusals >= old(refusals)
    {
      hide Core, Settled, Live, SameLive, Resized, HandedOut, Request2Size, BestFit, NothingFits, TopTooSmall, Kept, FitsForward, FitsBackward;
      LiveRefl(mem, sh);
      if AsLong(bytes) < 0 {
        return 0;
      }
      if ptr == 0 {
        ghost var origin;
        r, origin := Malloc(bytes);
      } else {
        CoreChunks(mem, sh, binblocks);
        r := Resize(ptr - 8, bytes);
      }
    }

    /** set_head and set_head_size as memalign uses them: chunk p in use becomes two chunks in use. */
    method CutChunk(p: int, k: int)
      requires Valid() && p in sh.used && p in sh.sz && k % 8 == 0 && MINSIZE <= k && k + MINSIZE <= sh.sz[p]
      modifies `mem, `sh
      ensures Valid() && SameLive(old(mem), mem, sh) && p + k !in old(Live(sh))
      ensures Live(sh) == old(Live(sh))[p := k][p + k := old(sh).sz[p] - k] && p in sh.used && p + k in sh.used
    {
      hide Core, Settled, Live, SameLive, CarveWrites;
      HeadReads(mem, sh, binblocks, p);
      ghost var t := CutUsed(mem, sh, binblocks, p, k);
      mem := CarveWrites(mem, p, k + mem[p + SIZE] % 2, p + k, ChunkSize(p) - k + 1);
      sh := t;
    }

    /** memalign: give back the space before the aligned spot. */
    method FreeLeader(p: int, lead: int, ghost live0: LiveMap)
      requires Valid() && p in sh.used && p in sh.sz && lead % 8 == 0 && MINSIZE <= lead && lead + MINSIZE <= sh.sz[p]
      requires p !in live0 && Live(sh) == live0[p := sh.sz[p]]
      modifies this
      ensures Valid() && p + lead !in live0 && Live(sh) == live0[p + lead := old(sh.sz[p]) - lead] && SameIn(old(mem), mem, live0)
      ensures p + lead in sh.used && p + lead in sh.sz && sh.sz[p + lead] == old(sh.sz[p]) - lead
      ensures refusals >= old(refusals)
    {
      hide Core, Settled, Live, SameLive, SameIn;
      ghost var m0, s0 := mem, sh;
      ghost var rest := sh.sz[p] - lead;
      SizeAtLeast(mem, sh, binblocks, p);
      CutChunk(p, lead);
      ghost var m1, s1 := mem, sh;
      Free(p + 8);
      hide *;
      LeaderGone(live0, Live(s0), Live(s1), Live(sh), p, lead, rest);
      LiveChain(m0, m1, mem, s1, sh);
      SameLiveIn(m0, mem, sh);
      SameInLess(m0, mem, Live(sh), live0);
      LiveHas(sh, p + lead, rest);
    }

    /** memalign: give back the spare room at the end. */
    method FreeTail(p: int, nb: int, ghost live0: LiveMap)
      requires Valid() && p in sh.used && p in sh.sz && nb % 8 == 0 && MINSIZE <= nb <= sh.sz[p]
      requires p !in live0 && Live(sh) == live0[p := sh.sz[p]]
      modifies this
      ensures Valid() && p in sh.sz && nb <= sh.sz[p] < nb + MINSIZE && Live(sh) == live0[p := sh.sz[p]] && SameIn(old(mem), mem, live0)
      ensures refusals >= old(refusals)
    {
      hide Core, Settled, Live, SameLive, SameIn;
      ghost var m0, s0 := mem, sh;
      HeadReads(mem, sh, binblocks, p);
      SameInRefl(mem, live0);
      var remainderSize := ChunkSize(p) - nb;
      if remainderSize >= MINSIZE {
        CutChunk(p, nb);
        ghost var m1, s1 := mem, sh;
        Free(p + nb + 8);
        LiveChain(m0, m1, mem, s1, sh);
        CutThenFreed(live0, p, nb, p + nb, remainderSize);
        SameLiveIn(m0, mem, sh);
        SameInLess(m0, mem, Live(sh), live0);
        LiveHas(sh, p, nb);
      }
    }

    /** memalign beyond malloc's own alignment: find an aligned spot in a larger chunk and give
        back what lies before and after. */
    method AlignChunk(m: int, alignment: nat, nb: nat, ghost m0: Mem, ghost s0: Shape) returns (r: int)
      requires Valid() && m - 8 in sh.sz && HandedOut(m0, mem, s0, sh, binblocks, m - 8, sh.sz[m - 8])
      requires alignment > 0 && alignment % 16 == 0 && nb % 8 == 0 && MINSIZE <= nb && nb + alignment + MINSIZE + WORD <= sh.sz[m - 8]
      modifies this
      ensures Valid() && IsMultiple(r, alignment) && r % ALIGNMENT == 0 && r != 0 && r - 8 !in Live(s0) && r - 8 in sh.sz
      ensures nb <= sh.sz[r - 8] < nb + MINSIZE && Live(sh) == Live(s0)[r - 8 := sh.sz[r - 8]] && SameIn(m0, mem, Live(s0))
      ensures refusals >= old(refusals)
    {
      hide Core, Settled, Live, SameLive, SameIn, HandedOut, AlignedSpot, IsMultiple;
      ghost var live0 := Live(s0);
      HandedOutLive(m0, mem, s0, sh, binblocks, m - 8, sh.sz[m - 8]);
      HandedOutSize(m0, mem, s0, sh, binblocks, m - 8, sh.sz[m - 8]);
      SpotLead(m, alignment, nb, sh.sz[m - 8]);
      ghost var m1 := mem;
      var p := AlignedSpot(m, alignment);
      hide Valid;
      if p != m - 8 {
        FreeLeader(m - 8, p - (m - 8), live0);
        SameInBoth(m0, m1, mem, live0);
      }
      ghost var m2 := mem;
      FreeTail(p, nb, live0);
      SameInBoth(m0, m2, mem, live0);
      r := p + 8;
      AboveNull(p);
    }

    lemma AboveNull(p: int)
      requires Valid() && p in sh.sz
      ensures p + 8 != 0
    {
      hide Core, Settled;
      SizeAtLeast(mem, sh, binblocks, p);
    }

    /** memalign(): alignment is a power of two. */
    method Memalign(alignment: nat, bytes: nat) returns (r: int)
      requires IsPower2(alignment) && alignment < TWO32 && bytes < TWO32 && Valid()
      requires alignment > ALIGNMENT && AsLong(bytes) >= 0 ==> SpotAvailable(Request2Size(bytes), alignment)
      modifies this
      ensures Valid()
      ensures AsLong(bytes) < 0 ==> r == 0 && mem == old(mem) && sh == old(sh)
      ensures r == 0 ==> Live(sh) == old(Live(sh)) && SameIn(old(mem), mem, old(Live(sh)))
      ensures r == 0 && AsLong(bytes) >= 0 ==>
                var wanted := if alignment <= ALIGNMENT then bytes else SpotRequest(Request2Size(bytes), alignment);
                AsLong(wanted) < 0 || (refusals > old(refusals) && NothingFits(old(sh), Request2Size(wanted)) && TopTooSmall(old(sh), Request2Size(wanted)))
      ensures r != 0 ==> r % alignment == 0 && r % ALIGNMENT == 0 && r - 8 !in old(Live(sh)) && r - 8 in sh.sz
      ensures r != 0 ==> Request2Size(bytes) <= sh.sz[r - 8] < Request2Size(bytes) + MINSIZE
      ensures r != 0 ==> Live(sh) == old(Live(sh))[r - 8 := sh.sz[r - 8]] && SameIn(old(mem), mem, old(Live(sh)))
      ensures refusals >= old(refusals)
    {
      hide Core, Settled, Live, SameLive, SameIn, HandedOut, Request2Size, BestFit, NothingFits, TopTooSmall, IsPower2;
      ghost var m0, s0 := mem, sh;
      SameLiveIn(mem, mem, sh);
      LiveRefl(mem, sh);
      if AsLong(bytes) < 0 {
        return 0;
      }
      ghost var origin;
      Power2Facts(alignment);
      if alignment <= ALIGNMENT {
        r, origin := Malloc(bytes);
        SameLiveIn(m0, mem, s0);
        if r != 0 {
          HandedOutLive(m0, mem, s0, sh, binblocks, r - 8, sh.sz[r - 8]);
          Power2Divides(r, alignment);
        }
        return;
      }
      var nb := Request2Size(bytes);
      var m;
      m, origin := Malloc(SpotRequest(nb, alignment));
      SameLiveIn(m0, mem, s0);
      if m == 0 {
        return 0;
      }
      RoomWraps(bytes);
      SpotExactly(nb, alignment);
      r := AlignChunk(m, alignment, nb, m0, s0);
    }
  }
}
