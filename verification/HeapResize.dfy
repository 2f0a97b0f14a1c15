/** Growing, cutting and moving chunks that are in use: what realloc and memalign need. The
    client's view of a heap is its map of live chunks to sizes. */
module HeapResize {
  import opened HeapSizes
  import opened HeapShape
  import opened HeapMemory
  import opened HeapSteps
  import opened HeapTake

  type LiveMap = map<int, int>

  /** The payloads of these chunks are the same in both memories. */
  ghost predicate SameIn(m: Mem, m2: Mem, live: LiveMap)
  {
    forall q, a {:trigger q in live, m2[a]} :: q in live && q + 8 <= a < q + live[q] + 4 ==> m2[a] == m[a]
  }

  lemma SameLiveIn(m: Mem, m2: Mem, s: Shape)
    ensures SameLive(m, m2, s) <==> SameIn(m, m2, Live(s))
  {
    if SameIn(m, m2, Live(s)) {
      forall q, a | q in s.used && q in s.sz && InPayload(s.sz, q, a) ensures m2[a] == m[a] { assert q in Live(s); }
    }
    if SameLive(m, m2, s) {
      forall q, a | q in Live(s) && q + 8 <= a < q + Live(s)[q] + 4 ensures m2[a] == m[a] { assert InPayload(s.sz, q, a); }
    }
  }

  predicate WordAligned(offset: int) { offset % 4 == 0 }

  /** The words at src reappear at dst. */
  ghost predicate Carried(m: Mem, m2: Mem, src: int, dst: int, n: int)
  {
    forall a {:trigger m2[a]} :: dst <= a < dst + n && WordAligned(a - dst) ==> m2[a] == m[a - dst + src]
  }

  function Least(a: int, b: int): int { if a < b then a else b }

  /** Chunk p became chunk q of the given size: its data came along up to the smaller size, and
      no other live chunk changed. */
  ghost predicate Resized(m: Mem, m2: Mem, live: LiveMap, live2: LiveMap, p: int, q: int, size: int)
  {
    && p in live && q !in live - {p} && live2 == (live - {p})[q := size]
    && SameIn(m, m2, live - {p})
    && Carried(m, m2, p + 8, q + 8, Least(live[p], size) - 4)
  }

  // ---- clients may write anywhere in their own chunks ----

  lemma PayloadsApart(s: Shape, p: int, q: int, a: int)
    requires Tiled(s) && p in s.sz && q in s.sz && p != q
    requires InPayload(s.sz, p, a)
    ensures !InPayload(s.sz, q, a)
  {
    hide Linked;
  }

  lemma TagsOutside(s: Shape, p: int, q: int)
    requires Tiled(s) && p in s.used && p in s.sz && q in s.sz
    ensures !InPayload(s.sz, p, q + SIZE)
    ensures IsFree(s, q) ==> !InPayload(s.sz, p, q + FD) && !InPayload(s.sz, p, q + BK) && !InPayload(s.sz, p, q + s.sz[q])
  {
    HeadWordPrivate(s, q, p);
    if IsFree(s, q) {
      NodeWordsPrivate(s, q, p);
      FootPrivate(s, q, p);
    }
    hide Tiled;
  }

  ghost predicate OnlyPayload(m: Mem, m2: Mem, s: Shape, p: int)
  {
    p in s.sz && forall a :: !InPayload(s.sz, p, a) ==> m2[a] == m[a]
  }

  lemma WriteMisses(m: Mem, m2: Mem, s: Shape, p: int, q: int)
    requires Tiled(s) && p in s.used && OnlyPayload(m, m2, s, p) && q in s.sz && IsFree(s, q)
    ensures m2[q + s.sz[q]] == m[q + s.sz[q]] && m2[q + FD] == m[q + FD] && m2[q + BK] == m[q + BK]
  {
    hide Tiled;
    TagsOutside(s, p, q);
    hide InPayload;
  }

  lemma WriteMissesBins(m: Mem, m2: Mem, s: Shape, p: int)
    requires Tiled(s) && p in s.used && OnlyPayload(m, m2, s, p)
    ensures forall a :: 16 <= a < BINS_END ==> m2[a] == m[a]
  {
    assert BINS_END <= p by { assert Legal(p, s.sz[p]); }
    hide Tiled;
  }

  lemma WriteQuiet(m: Mem, m2: Mem, s: Shape, p: int)
    requires Tiled(s) && Placed(s) && p in s.used && OnlyPayload(m, m2, s, p)
    ensures Quiet(m, m2, s)
  {
    hide Tiled, Placed, OnlyPayload, IsFree;
    WriteMissesBins(m, m2, s, p);
    forall q | q in s.at ensures q in s.sz && m2[q + s.sz[q]] == m[q + s.sz[q]] && m2[q + FD] == m[q + FD] && m2[q + BK] == m[q + BK]
    {
      BinnedIsChunk(s, q);
      WriteMisses(m, m2, s, p, q);
    }
  }

  lemma WriteOthers(m: Mem, m2: Mem, s: Shape, p: int)
    requires Tiled(s) && p in s.used && OnlyPayload(m, m2, s, p)
    ensures Heads(m, s) ==> Heads(m2, s)
    ensures SameIn(m, m2, Live(s) - {p})
  {
    hide Tiled, PrevInUse;
    forall q | q in s.sz ensures m2[q + SIZE] == m[q + SIZE] { TagsOutside(s, p, q); }
    forall q, a | q in Live(s) - {p} && q + 8 <= a < q + Live(s)[q] + 4 ensures m2[a] == m[a]
    {
      assert InPayload(s.sz, q, a);
      PayloadsApart(s, q, p, a);
    }
  }

  /** Whatever a client stores in the payload of its chunk, the heap stays well formed and
      every other chunk's data is untouched. */
  lemma ClientWrites(m: Mem, m2: Mem, s: Shape, blocks: bv32, p: int)
    requires Core(m, s, blocks) && p in s.used && OnlyPayload(m, m2, s, p)
    ensures Core(m2, s, blocks) && SameIn(m, m2, Live(s) - {p})
  {
    hide Tiled, Placed, Heads, Feet, Rings, Marks, Quiet, OnlyPayload, SameIn, Live;
    WriteQuiet(m, m2, s, p);
    WriteOthers(m, m2, s, p);
    QuietKeepsLists(m, m2, s);
  }

  // ---- the two tags realloc writes last ----

  /** set_head_size(p, size); set_inuse_bit_at_offset(p, size) */
  function Patched(m: Mem, p: int, size: int): Mem
  {
    m[p + SIZE := size + m[p + SIZE] % 2][p + size + SIZE := WithPrevInUse(m[p + size + SIZE])]
  }

  lemma PatchedAt(m: Mem, p: int, size: int, a: int)
    requires MINSIZE <= size
    ensures Patched(m, p, size)[a] ==
      if a == p + SIZE then size + m[a] % 2 else if a == p + size + SIZE then WithPrevInUse(m[a]) else m[a]
  {
    hide WithPrevInUse;
  }

  lemma PatchedElsewhere(m: Mem, p: int, size: int, a: int)
    requires MINSIZE <= size && a != p + SIZE && a != p + size + SIZE
    ensures Patched(m, p, size)[a] == m[a]
  {
    hide WithPrevInUse;
  }

  lemma PatchedOnce(m: Mem, p: int, size: int)
    requires MINSIZE <= size && m[p + SIZE] % 2 == 1 && WithPrevInUse(m[p + size + SIZE]) == m[p + size + SIZE]
    ensures Patched(m, p, size) == m[p + SIZE := size + 1]
  {
    hide WithPrevInUse;
    WriteSame(m[p + SIZE := size + 1], p + size + SIZE, m[p + size + SIZE]);
  }

  // ---- a chunk in use swallows the loose chunk after it ----

  /** Chunk p of s is chunk q of t, with the given size. */
  ghost predicate Moved(s: Shape, t: Shape, p: int, q: int, size: int)
  {
    && p in s.used && p in s.sz && q in t.used && q in t.sz && t.sz[q] == size && t.used == s.used - {p} + {q}
    && (q in s.used ==> q == p)
    && (forall x :: x in s.used && x != p && x in s.sz ==> x in t.sz && t.sz[x] == s.sz[x])
  }

  lemma MovedLive(s: Shape, t: Shape, p: int, q: int, size: int)
    requires Moved(s, t, p, q, size) && s.used <= s.sz.Keys
    ensures p in Live(s) && Live(s)[p] == s.sz[p] && q !in Live(s) - {p} && Live(t) == (Live(s) - {p})[q := size]
  {
    var l := (Live(s) - {p})[q := size];
    forall x | x in l ensures x in Live(t) && Live(t)[x] == l[x] { if x != q { assert x in s.used && x in s.sz && x != p; } }
    forall x | x in Live(t) ensures x in l { if x != q { assert x in s.used && x in s.sz && x != p; } }
  }

  lemma SwallowShape(s: Shape, p: int)
    requires Tiled(s) && p in s.used && p in s.sz && p != s.top && Next(s.sz, p) != s.top
    ensures var n, t := Next(s.sz, p), Fuse(s, p, true);
            && n in s.sz && n != p && Next(s.sz, n) in s.sz && t.used == s.used - {n} && t.top == s.top && t.at == s.at && t.bins == s.bins && t.prv.Keys >= s.prv.Keys
            && p in t.sz && t.sz[p] == s.sz[p] + s.sz[n]
            && (forall y :: y in t.sz <==> y in s.sz && y != n)
            && (forall y :: y in t.sz && y != p ==> t.sz[y] == s.sz[y])
            && (s.top in s.sz ==> s.top in t.sz && t.sz[s.top] == s.sz[s.top])
  {
    FuseSizes(s, p, true);
    NextChunk(s, p);
    NextChunk(s, Next(s.sz, p));
    hide Tiled;
  }

  lemma SwallowSettles(s: Shape, p: int, x: set<int>)
    requires Tiled(s) && p in s.used && p in s.sz && p != s.top && Next(s.sz, p) != s.top && SettledBut(s, x) && x <= {Next(s.sz, p)}
    ensures Settled(Fuse(s, p, true))
  {
    hide Tiled, Fuse;
    SwallowShape(s, p);
    var n, t := Next(s.sz, p), Fuse(s, p, true);
    forall y | IsFree(t, y) ensures y in t.at && y + t.sz[y] in t.used
    {
      assert IsFree(s, y) && y != n && y != p;
      NextChunk(s, y);
      NextChunk(s, p);
    }
  }

  lemma PatchedIsFuse(m: Mem, s: Shape, p: int, n: int, nn: int)
    requires p in s.sz && n == Next(s.sz, p) && n in s.sz && nn == Next(s.sz, n) && nn in s.sz && n != s.top && nn != p
    requires m[p + SIZE] % 2 == PrevInUse(s, p) && WithPrevInUse(m[nn + SIZE]) == s.sz[nn] + 1
    ensures Patched(m, p, s.sz[p] + s.sz[n]) == FuseWrites(m, s, p, true)
  {
    hide PrevInUse, WithPrevInUse;
  }

  /** Chunk p in use and its successor, loose or in use, become one chunk in use. */
  lemma Swallow(m: Mem, s: Shape, blocks: bv32, p: int, x: set<int>)
    requires Core(m, s, blocks) && p in s.used && p in s.sz && SettledBut(s, x) && x <= {Next(s.sz, p)}
    requires Next(s.sz, p) != s.top && Next(s.sz, p) !in s.at
    ensures Next(s.sz, p) in s.sz
    ensures var t, m2 := Fuse(s, p, true), Patched(m, p, s.sz[p] + s.sz[Next(s.sz, p)]);
            Core(m2, t, blocks) && Settled(t) && SameLive(m, m2, t)
  {
    hide Core, SameLive, PrevInUse, Tiled, Placed, Heads, Fuse, SettledBut, Settled, Patched, FuseWrites;
    CoreChunks(m, s, blocks);
    UsedFacts(s, p);
    SwallowShape(s, p);
    SwallowSettles(s, p, x);
    var n := Next(s.sz, p);
    HeadReads(m, s, blocks, p);
    HeadAfter(m, s, blocks, n);
    FuseCore(m, s, blocks, p, true);
    assert Next(s.sz, n) != p by { NextChunk(s, p); NextChunk(s, n); }
    PatchedIsFuse(m, s, p, n, Next(s.sz, n));
  }

  lemma HeadAfter(m: Mem, s: Shape, blocks: bv32, n: int)
    requires Core(m, s, blocks) && n in s.sz && n != s.top
    ensures Next(s.sz, n) in s.sz && WithPrevInUse(m[Next(s.sz, n) + SIZE]) == s.sz[Next(s.sz, n)] + 1
    ensures n in s.used ==> m[Next(s.sz, n) + SIZE] == s.sz[Next(s.sz, n)] + 1
  {
    hide Core, Tiled, Placed, PrevInUse, Heads;
    CoreParts(m, s, blocks);
    NextChunk(s, n);
    NextUses(s, n);
    HeadOf(m, s, blocks, Next(s.sz, n));
    SizeIsEven(m, s, blocks, Next(s.sz, n));
  }

  lemma SizeIsEven(m: Mem, s: Shape, blocks: bv32, p: int)
    requires Core(m, s, blocks) && p in s.sz
    ensures s.sz[p] % 2 == 0
  {
    hide Core, PrevInUse;
    HeadReads(m, s, blocks, p);
  }

  // ---- what each way of extending a chunk leaves ----

  /** Before data is copied: chunk p of s has become chunk q of t. */
  ghost predicate Extended(m: Mem, m2: Mem, s: Shape, t: Shape, blocks: bv32, p: int, q: int, size: int)
  {
    && Core(m2, t, blocks) && Settled(t) && q in t.used && q in t.sz && t.sz[q] == size
    && p in Live(s) && q !in Live(s) - {p} && Live(t) == (Live(s) - {p})[q := size] && SameIn(m, m2, Live(s) - {p})
  }

  /** Every chunk of live2 is in live, and no larger. */
  ghost predicate NoMore(live2: LiveMap, live: LiveMap)
  {
    forall q :: q in live2 ==> q in live && live[q] >= live2[q]
  }

  lemma SameInLess(m: Mem, m2: Mem, live: LiveMap, live2: LiveMap)
    requires SameIn(m, m2, live) && NoMore(live2, live)
    ensures SameIn(m, m2, live2)
  {
  }

  lemma SameInBoth(m0: Mem, m1: Mem, m2: Mem, live: LiveMap)
    requires SameIn(m0, m1, live) && SameIn(m1, m2, live)
    ensures SameIn(m0, m2, live)
  {
  }

  lemma Extends(m0: Mem, m1: Mem, m2: Mem, s: Shape, t: Shape, blocks: bv32, p: int, q: int, size: int)
    requires SameLive(m0, m1, s) && SameLive(m1, m2, t) && Moved(s, t, p, q, size) && s.used <= s.sz.Keys
    requires Core(m2, t, blocks) && Settled(t)
    ensures Extended(m0, m2, s, t, blocks, p, q, size)
  {
    hide Core, Settled;
    MovedLive(s, t, p, q, size);
    SameLiveIn(m0, m1, s);
    SameLiveIn(m1, m2, t);
    hide SameLive, Moved, Live, SameIn;
    SameInLess(m0, m1, Live(s), Live(s) - {p});
    SameInLess(m1, m2, Live(t), Live(s) - {p});
    SameInBoth(m0, m1, m2, Live(s) - {p});
  }

  /** m2 is m after n bytes of words were copied from src to dst. */
  ghost predicate Copied(m: Mem, m2: Mem, src: int, dst: int, n: int)
  {
    forall a {:trigger m2[a]} {:trigger WordCopied(m, m2, src, dst, n, a)} :: WordCopied(m, m2, src, dst, n, a)
  }

  ghost predicate WordCopied(m: Mem, m2: Mem, src: int, dst: int, n: int, a: int)
  {
    m2[a] == if dst <= a < dst + n && WordAligned(a - dst) then m[a - dst + src] else m[a]
  }

  /** Copying into the extended chunk completes the resize. */
  lemma CopyCompletes(m0: Mem, m2: Mem, m3: Mem, s: Shape, t: Shape, blocks: bv32, p: int, q: int, size: int)
    requires Extended(m0, m2, s, t, blocks, p, q, size) && OnlyPayload(m2, m3, t, q) && Live(s)[p] <= size
    requires Carried(m0, m3, p + 8, q + 8, Live(s)[p] - 4)
    ensures Core(m3, t, blocks) && Settled(t) && Resized(m0, m3, Live(s), Live(t), p, q, size)
  {
    hide Core, Settled, OnlyPayload, Carried;
    ClientWrites(m2, m3, t, blocks, q);
    hide Live, SameIn;
    SameInLess(m2, m3, Live(t) - {q}, Live(s) - {p});
    SameInBoth(m0, m2, m3, Live(s) - {p});
  }

  lemma InPlace(m0: Mem, m1: Mem, m2: Mem, s: Shape, t: Shape, p: int)
    requires SameLive(m0, m1, s) && SameLive(m1, m2, t) && p in s.used && p in s.sz && p in t.used && p in t.sz && s.sz[p] <= t.sz[p]
    ensures Carried(m0, m2, p + 8, p + 8, s.sz[p] - 4)
  {
    forall a | p + 8 <= a < p + 8 + s.sz[p] - 4 ensures m2[a] == m0[a]
    {
      assert InPayload(s.sz, p, a) && InPayload(t.sz, p, a);
    }
  }

  lemma CopyCarriesAt(m0: Mem, m1: Mem, mc: Mem, s: Shape, p: int, q: int, size: int, a: int)
    requires SameLive(m0, m1, s) && p in s.used && p in s.sz && s.sz[p] <= size && MINSIZE <= size
    requires Copied(m1, mc, p + 8, q + 8, s.sz[p] - 4) && q + 8 <= a < q + 8 + s.sz[p] - 4 && WordAligned(a - (q + 8))
    ensures Patched(mc, q, size)[a] == m0[a - (q + 8) + (p + 8)]
  {
    hide Patched, WordAligned;
    PatchedElsewhere(mc, q, size, a);
    assert InPayload(s.sz, p, a - (q + 8) + (p + 8));
  }

  lemma CopyCarries(m0: Mem, m1: Mem, mc: Mem, s: Shape, p: int, q: int, size: int)
    requires SameLive(m0, m1, s) && p in s.used && p in s.sz && s.sz[p] <= size && MINSIZE <= size
    requires Copied(m1, mc, p + 8, q + 8, s.sz[p] - 4)
    ensures Carried(m0, Patched(mc, q, size), p + 8, q + 8, s.sz[p] - 4)
  {
    hide Patched, WordAligned, SameLive, Copied;
    forall a | q + 8 <= a < q + 8 + s.sz[p] - 4 && WordAligned(a - (q + 8))
      ensures Patched(mc, q, size)[a] == m0[a - (q + 8) + (p + 8)]
    { CopyCarriesAt(m0, m1, mc, s, p, q, size, a); }
  }

  lemma CopyStaysInside(m1: Mem, mc: Mem, t: Shape, q: int, src: int, n: int)
    requires q in t.sz && MINSIZE <= t.sz[q] && n <= t.sz[q] - 4 && Copied(m1, mc, src, q + 8, n)
    ensures OnlyPayload(Patched(m1, q, t.sz[q]), Patched(mc, q, t.sz[q]), t, q)
  {
    var m2, m3 := Patched(m1, q, t.sz[q]), Patched(mc, q, t.sz[q]);
    hide Patched, WordAligned;
    forall a | !InPayload(t.sz, q, a) ensures m3[a] == m2[a]
    {
      PatchedAt(m1, q, t.sz[q], a);
      PatchedAt(mc, q, t.sz[q], a);
    }
  }

  /** Shift and copy: the chunk moved down to q, tags written after the copy. */
  lemma ShiftCompletes(m0: Mem, m1: Mem, mc: Mem, s: Shape, t: Shape, blocks: bv32, p: int, q: int, size: int)
    requires Extended(m0, Patched(m1, q, size), s, t, blocks, p, q, size) && SameLive(m0, m1, s)
    requires p in s.used && p in s.sz && MINSIZE <= s.sz[p] <= size && Copied(m1, mc, p + 8, q + 8, s.sz[p] - 4)
    ensures var m3 := Patched(mc, q, size);
            Core(m3, t, blocks) && Settled(t) && Resized(m0, m3, Live(s), Live(t), p, q, size)
  {
    hide Core, Settled, SameLive, Copied, Patched, Carried, OnlyPayload, SameIn;
    CopyCarries(m0, m1, mc, s, p, q, size);
    CopyStaysInside(m1, mc, t, q, p + 8, s.sz[p] - 4);
    CopyCompletes(m0, Patched(m1, q, size), Patched(mc, q, size), s, t, blocks, p, q, size);
  }

  lemma SwallowMoves(s: Shape, s1: Shape, p: int)
    requires Tiled(s1) && p in s1.used && p in s1.sz && p != s1.top && Next(s1.sz, p) != s1.top && Next(s1.sz, p) !in s.used
    requires s1.sz == s.sz && s1.used == s.used
    ensures var t, size := Fuse(s1, p, true), s.sz[p] + s.sz[Next(s.sz, p)];
            Moved(s, t, p, p, size) && p in t.used && p in t.sz && t.sz[p] == size && s.sz[p] <= size
  {
    SwallowShape(s1, p);
    hide Fuse, Linked, Apart;
    assert Legal(Next(s.sz, p), s.sz[Next(s.sz, p)]);
  }

  lemma ForwardExtends(m: Mem, s: Shape, blocks: bv32, p: int) returns (t: Shape)
    requires Core(m, s, blocks) && Settled(s) && p in s.used && p in s.sz && Next(s.sz, p) in s.at
    ensures Next(s.sz, p) in s.sz
    ensures var n := Next(s.sz, p);
            var size, m1 := s.sz[p] + s.sz[n], UnlinkWrites(m, n);
            && Extended(m, Patched(m1, p, size), s, t, blocks, p, p, size)
            && Core(Patched(m1, p, size), t, blocks) && Settled(t) && Resized(m, Patched(m1, p, size), Live(s), Live(t), p, p, size)
            && t.top == s.top && s.top in s.sz && s.top in t.sz && t.sz[s.top] == s.sz[s.top]
  {
    hide *;
    CoreChunks(m, s, blocks);
    UsedFacts(s, p);
    HeadReads(m, s, blocks, p);
    var n := Next(s.sz, p);
    BinnedIsUnused(s, n);
    HeadReads(m, s, blocks, n);
    OffCore(m, s, blocks, n);
    OffIsWalled(s, n);
    var s1, m1 := Off(s, n), UnlinkWrites(m, n);
    CoreChunks(m1, s1, blocks);
    SwallowShape(s1, p);
    Swallow(m1, s1, blocks, p, {n});
    t := Fuse(s1, p, true);
    SwallowMoves(s, s1, p);
    Extends(m, m1, Patched(m1, p, s.sz[p] + s.sz[n]), s, t, blocks, p, p, s.sz[p] + s.sz[n]);
    InPlace(m, m1, Patched(m1, p, s.sz[p] + s.sz[n]), s, t, p);
    NoCopy(m, Patched(m1, p, s.sz[p] + s.sz[n]), s, t, blocks, p, s.sz[p] + s.sz[n]);
  }

  lemma NoCopy(m0: Mem, m2: Mem, s: Shape, t: Shape, blocks: bv32, p: int, size: int)
    requires Extended(m0, m2, s, t, blocks, p, p, size) && p in s.sz && s.sz[p] <= size
    requires Carried(m0, m2, p + 8, p + 8, s.sz[p] - 4)
    ensures Core(m2, t, blocks) && Settled(t) && Resized(m0, m2, Live(s), Live(t), p, p, size)
  {
    hide Core, Settled, Carried, SameIn;
  }

  /** What unlinking the free chunk q before p and joining it with p leaves. */
  lemma AbsorbExtends(m: Mem, s: Shape, blocks: bv32, p: int) returns (t: Shape)
    requires Core(m, s, blocks) && Settled(s) && p in s.used && p in s.sz && PrevInUse(s, p) == 0
    ensures p in s.prv && s.prv[p] in s.at && s.prv[p] in s.sz
    ensures var q := s.prv[p];
            var size, m1 := s.sz[q] + s.sz[p], UnlinkWrites(m, q);
            && SameLive(m, m1, s) && Extended(m, Patched(m1, q, size), s, t, blocks, p, q, size)
            && t.top == s.top && s.top in s.sz && s.top in t.sz && t.sz[s.top] == s.sz[s.top]
  {
    hide Core, SameLive, Tiled, Placed, Settled, SettledBut, Fuse, Off, Patched, UnlinkWrites, Extended, IsLoose, PrevInUse;
    CoreChunks(m, s, blocks);
    UsedFacts(s, p);
    PrevReady(m, s, blocks, p);
    HeadReads(m, s, blocks, p);
    var q := s.prv[p];
    OffCore(m, s, blocks, q);
    var s1, m1 := Off(s, q), UnlinkWrites(m, q);
    CoreChunks(m1, s1, blocks);
    AbsorbShape(s1, q);
    AbsorbSettles(s1, q);
    AbsorbIntoPrev(m1, s1, blocks, q);
    t := Fuse(s1, q, true);
    PatchedOdd(m1, s1, blocks, q, p);
    Extends(m, m1, Patched(m1, q, s.sz[q] + s.sz[p]), s, t, blocks, p, q, s.sz[q] + s.sz[p]);
  }

  lemma HeadIsOdd(m: Mem, s: Shape, blocks: bv32, p: int)
    requires Core(m, s, blocks) && p in s.sz && PrevInUse(s, p) == 1
    ensures m[p + SIZE] % 2 == 1
  {
    hide Core, PrevInUse;
    HeadReads(m, s, blocks, p);
  }

  lemma AfterUsed(m: Mem, s: Shape, blocks: bv32, p: int)
    requires Core(m, s, blocks) && p in s.used && p in s.sz
    ensures Next(s.sz, p) in s.sz && WithPrevInUse(m[Next(s.sz, p) + SIZE]) == m[Next(s.sz, p) + SIZE]
  {
    CoreChunks(m, s, blocks);
    UsedFacts(s, p);
    HeadAfter(m, s, blocks, p);
    hide Core, Tiled, Placed, WithPrevInUse;
  }

  lemma PatchedOdd(m: Mem, s: Shape, blocks: bv32, q: int, p: int)
    requires Core(m, s, blocks) && q in s.sz && PrevInUse(s, q) == 1 && p in s.used && p in s.sz && p == Next(s.sz, q)
    ensures Patched(m, q, s.sz[q] + s.sz[p]) == m[q + SIZE := s.sz[q] + s.sz[p] + 1]
  {
    hide Core, PrevInUse, Patched, WithPrevInUse;
    SizeAtLeast(m, s, blocks, q);
    SizeAtLeast(m, s, blocks, p);
    HeadIsOdd(m, s, blocks, q);
    AfterUsed(m, s, blocks, p);
    PatchedOnce(m, q, s.sz[q] + s.sz[p]);
  }

  lemma PatchedOver(m: Mem, q: int, v: int, size: int)
    requires MINSIZE <= size && m[q + SIZE] % 2 == v % 2
    ensures Patched(m[q + SIZE := v], q, size) == Patched(m, q, size)
  {
    hide WithPrevInUse;
    Overwrite(m, q + SIZE, v, size + v % 2);
  }

  /** q and then p and then n, the outer two loose, p in use: q joined with p, n still loose. */
  lemma AbsorbSettlesBut(s: Shape, q: int, n: int)
    requires Tiled(s) && IsLoose(s, q) && PrevInUse(s, q) == 1 && Next(s.sz, q) in s.used && SettledBut(s, {q, n}) && q != n
    ensures SettledBut(Fuse(s, q, true), {n})
  {
    hide Tiled, PrevInUse, Fuse;
    AbsorbShape(s, q);
    var t := Fuse(s, q, true);
    forall y | IsFree(t, y) && y !in {n} ensures y in t.at && (y + t.sz[y] in t.used || y + t.sz[y] in {n})
    {
      assert IsFree(s, y) && y != q;
      NotBeforeUsed(s, q, y);
      NextChunk(s, y);
      NextChunk(s, q);
    }
  }

  /** The situation once both free neighbours of p are off their lists. */
  ghost predicate BothLoose(s: Shape, q: int, p: int, n: int)
  {
    && IsLoose(s, q) && PrevInUse(s, q) == 1 && q in s.sz && Next(s.sz, q) == p && p in s.used && p in s.sz && Next(s.sz, p) == n
    && IsLoose(s, n) && SettledBut(s, {q, n}) && q != n && n in s.sz
  }

  lemma BothOff(s: Shape, p: int)
    requires Tiled(s) && Placed(s) && Settled(s) && p in s.used && p in s.sz && PrevInUse(s, p) == 0 && Next(s.sz, p) in s.at
    ensures p in s.prv && s.prv[p] in s.at && s.prv[p] in s.sz && Placed(Off(s, Next(s.sz, p))) && s.prv[p] in Off(s, Next(s.sz, p)).at
    ensures BothLoose(Off(Off(s, Next(s.sz, p)), s.prv[p]), s.prv[p], p, Next(s.sz, p))
  {
    hide Tiled, Placed, Settled, SettledBut, PrevInUse, Off, IsFree;
    PrevIsFree(s, p);
    var q, n := s.prv[p], Next(s.sz, p);
    BinnedIsChunk(s, n);
    UsedIsNot(s, p, n);
    NextChunk(s, p);
    assert q < p < n;
    FreeIsWalled(s, q);
    WalledIs(s, q);
    OffPlaced(s, n);
    OffKeepsPrevInUse(s, n, q);
    var s1 := Off(s, n);
    OffPlaced(s1, q);
    OffKeepsPrevInUse(s1, q, q);
    SettledIsBut(s);
    OffSettles(s, {}, n);
    OffSettles(s1, {} + {n}, q);
    assert {} + {n} + {q} == {q, n};
    StillLoose(s1, q, n);
  }

  lemma UsedIsNot(s: Shape, p: int, n: int)
    requires p in s.used && IsFree(s, n) && Tiled(s)
    ensures p != n && p != s.top
  {
    hide Bounded, Linked, Apart;
  }

  lemma StillLoose(s: Shape, q: int, n: int)
    requires Placed(s) && q in s.at && IsLoose(s, n)
    ensures IsLoose(Off(s, q), n)
  {
    hide Placed, Off;
  }

  /** Both neighbours joined with p, which starts at q then. */
  ghost function Both(s: Shape, q: int): Shape
    requires q in s.sz && Next(s.sz, q) in s.sz && q in Fuse(s, q, true).sz && Next(Fuse(s, q, true).sz, q) in Fuse(s, q, true).sz
  {
    Fuse(Fuse(s, q, true), q, true)
  }

  lemma BothShape(s: Shape, q: int, p: int, n: int)
    requires Tiled(s) && BothLoose(s, q, p, n) && Tiled(Fuse(s, q, true))
    ensures var s1 := Fuse(s, q, true);
            && q in s1.used && q in s1.sz && Next(s1.sz, q) == n && n != s.top && s1.sz[q] == s.sz[q] + s.sz[p]
            && n in s1.sz && s1.sz[n] == s.sz[n] && n !in s1.at && Settled(Fuse(s1, q, true)) && SettledBut(s1, {n}) && s1.top == s.top
    ensures Moved(s, Both(s, q), p, q, s.sz[q] + s.sz[p] + s.sz[n])
    ensures var t, s1 := Both(s, q), Fuse(s, q, true); t.top == s.top && (s.top in s.sz ==> s.top in t.sz && t.sz[s.top] == s.sz[s.top]) && t.used == s1.used
  {
    hide Tiled, Settled, SettledBut, Fuse, PrevInUse;
    AbsorbShape(s, q);
    AbsorbSettlesBut(s, q, n);
    var s1 := Fuse(s, q, true);
    SwallowShape(s1, q);
    SwallowSettles(s1, q, {n});
    assert s1.used - {n} == s1.used;
    UsedIsNot(s, p, q);
    assert s.top in s.sz ==> s.top != p && s.top != q && s.top != n;
  }

  lemma BothJoined(m: Mem, s: Shape, blocks: bv32, q: int, p: int, n: int) returns (t: Shape)
    requires Core(m, s, blocks) && BothLoose(s, q, p, n)
    ensures var size := s.sz[q] + s.sz[p] + s.sz[n];
            var m2 := Patched(m, q, size);
            && Core(m2, t, blocks) && Settled(t) && SameLive(m, m2, t) && Moved(s, t, p, q, size)
            && t.top == s.top && (s.top in s.sz ==> s.top in t.sz && t.sz[s.top] == s.sz[s.top])
  {
    hide Core, SameLive, Tiled, Placed, Settled, SettledBut, Fuse, Patched, PrevInUse, Moved;
    CoreChunks(m, s, blocks);
    SizeAtLeast(m, s, blocks, q);
    SizeAtLeast(m, s, blocks, p);
    SizeAtLeast(m, s, blocks, n);
    AbsorbIntoPrev(m, s, blocks, q);
    var s1 := Fuse(s, q, true);
    var m1 := m[q + SIZE := s.sz[q] + s.sz[p] + 1];
    CoreChunks(m1, s1, blocks);
    BothShape(s, q, p, n);
    HeadIsOdd(m, s, blocks, q);
    HeadIsOdd(m1, s1, blocks, q);
    hide BothLoose, IsLoose;
    Swallow(m1, s1, blocks, q, {n});
    t := Both(s, q);
    var size := s.sz[q] + s.sz[p] + s.sz[n];
    PatchedOver(m, q, s.sz[q] + s.sz[p] + 1, size);
    CoreChunks(Patched(m, q, size), t, blocks);
    JoinedLive(m, m1, Patched(m, q, size), s1, t, q);
  }

  lemma JoinedLive(m: Mem, m1: Mem, m2: Mem, s1: Shape, t: Shape, q: int)
    requires SameLive(m1, m2, t) && t.used == s1.used && OnlyHeads(m, m1, q, q) && Tiled(t) && q in t.sz
    ensures SameLive(m, m2, t)
  {
    hide Tiled, OnlyHeads;
    HeadWritesLive(m, m1, t, q, q);
    LiveTrans(m, m1, m2, t, t);
  }

  lemma BothExtends(m: Mem, s: Shape, blocks: bv32, p: int) returns (t: Shape)
    requires Core(m, s, blocks) && Settled(s) && p in s.used && p in s.sz && PrevInUse(s, p) == 0 && Next(s.sz, p) in s.at
    ensures p in s.prv && s.prv[p] in s.at && s.prv[p] in s.sz && Next(s.sz, p) in s.sz
    ensures var q, n := s.prv[p], Next(s.sz, p);
            var size, m2 := s.sz[q] + s.sz[p] + s.sz[n], UnlinkWrites(UnlinkWrites(m, n), q);
            && SameLive(m, m2, s) && Extended(m, Patched(m2, q, size), s, t, blocks, p, q, size)
            && t.top == s.top && s.top in s.sz && s.top in t.sz && t.sz[s.top] == s.sz[s.top]
  {
    hide Core, SameLive, Tiled, Placed, Settled, SettledBut, Off, Patched, UnlinkWrites, Extended, IsLoose, PrevInUse, BothLoose, Moved;
    CoreChunks(m, s, blocks);
    UsedFacts(s, p);
    HeadReads(m, s, blocks, p);
    BothOff(s, p);
    var q, n := s.prv[p], Next(s.sz, p);
    BinnedIsUnused(s, n);
    OffCore(m, s, blocks, n);
    var s1, m1 := Off(s, n), UnlinkWrites(m, n);
    OffCore(m1, s1, blocks, q);
    var s2, m2 := Off(s1, q), UnlinkWrites(m1, q);
    LiveSameShape(m1, m2, s1, s);
    LiveTrans(m, m1, m2, s, s);
    t := BothJoined(m2, s2, blocks, q, p, n);
    MovedFrom(s, s2, t, p, q, s.sz[q] + s.sz[p] + s.sz[n]);
    Extends(m, m2, Patched(m2, q, s.sz[q] + s.sz[p] + s.sz[n]), s, t, blocks, p, q, s.sz[q] + s.sz[p] + s.sz[n]);
  }

  lemma MovedFrom(s: Shape, s2: Shape, t: Shape, p: int, q: int, size: int)
    requires Moved(s2, t, p, q, size) && s2.used == s.used && s2.sz == s.sz
    ensures Moved(s, t, p, q, size)
  {
  }

  /** A chunk just handed out right behind p, joined with p. */
  lemma MergeExtends(m0: Mem, m: Mem, s0: Shape, s: Shape, blocks: bv32, p: int, n: int, nsize: int) returns (t: Shape)
    requires HandedOut(m0, m, s0, s, blocks, n, nsize) && p in s0.used && p in s0.sz && s0.used <= s0.sz.Keys
    requires n == p + s0.sz[p]
    ensures var size := s0.sz[p] + nsize;
            && Core(Patched(m, p, size), t, blocks) && Settled(t) && Resized(m0, Patched(m, p, size), Live(s0), Live(t), p, p, size)
            && p in t.used && p in t.sz && t.sz[p] == size
            && t.top == s.top && s.top in s.sz && s.top in t.sz && t.sz[s.top] == s.sz[s.top]
  {
    hide Core, SameLive, Tiled, Placed, Settled, SettledBut, Patched, PrevInUse, Fuse, Resized;
    CoreChunks(m, s, blocks);
    assert p in Live(s0) && p in Live(s) && Live(s)[p] == s0.sz[p] && p != n;
    assert p in s.used && p in s.sz && s.sz[p] == s0.sz[p] && n in s.used && n in s.sz && s.sz[n] == nsize && n == Next(s.sz, p);
    UsedFacts(s, p);
    UsedFacts(s, n);
    SizeAtLeast(m, s, blocks, n);
    SizeAtLeast(m, s, blocks, p);
    HeadReads(m, s, blocks, p);
    SettledIsBut(s);
    SwallowShape(s, p);
    Swallow(m, s, blocks, p, {});
    t := Fuse(s, p, true);
    CoreChunks(Patched(m, p, s0.sz[p] + nsize), t, blocks);
    MergedLive(m0, m, Patched(m, p, s0.sz[p] + nsize), s0, s, t, p, n);
  }

  lemma MergedLive(m0: Mem, m: Mem, m2: Mem, s0: Shape, s: Shape, t: Shape, p: int, n: int)
    requires SameLive(m0, m, s0) && SameLive(m, m2, t) && p in Live(s0) && n !in Live(s0) && p in s.used && s.used <= s.sz.Keys && n in s.sz && p in s.sz && s.sz[n] >= 0
    requires Live(s) == Live(s0)[n := s.sz[n]] && t.used == s.used - {n} && p in t.sz && t.sz[p] == s.sz[p] + s.sz[n]
    requires forall y :: y in t.sz <==> y in s.sz && y != n
    requires forall y :: y in t.sz && y != p ==> t.sz[y] == s.sz[y]
    ensures Resized(m0, m2, Live(s0), Live(t), p, p, s0.sz[p] + s.sz[n])
  {
    hide SameLive, SameIn;
    SameLiveIn(m0, m, s0);
    SameLiveIn(m, m2, t);
    assert Live(s)[p] == s0.sz[p] && Live(s0)[p] == s0.sz[p] && p != n;
    MergedMap(s, t, p, n);
    hide Live;
    MergedMaps(m0, m, m2, Live(s0), Live(s), Live(t), p, n, s.sz[n]);
  }

  lemma MergedMap(s: Shape, t: Shape, p: int, n: int)
    requires p in s.used && p != n && s.used <= s.sz.Keys && n in s.sz && p in s.sz
    requires t.used == s.used - {n} && p in t.sz && t.sz[p] == s.sz[p] + s.sz[n]
    requires forall y :: y in t.sz <==> y in s.sz && y != n
    requires forall y :: y in t.sz && y != p ==> t.sz[y] == s.sz[y]
    ensures Live(t) == (Live(s) - {n})[p := s.sz[p] + s.sz[n]]
  {
    var l := (Live(s) - {n})[p := s.sz[p] + s.sz[n]];
    forall x | x in l ensures x in Live(t) && Live(t)[x] == l[x] { if x != p { assert x in Live(s); } }
    forall x | x in Live(t) ensures x in l { if x != p { assert x in s.used && x in s.sz; } }
  }

  lemma MergedMaps(m0: Mem, m: Mem, m2: Mem, l0: LiveMap, l1: LiveMap, l2: LiveMap, p: int, n: int, nsize: int)
    requires SameIn(m0, m, l0) && SameIn(m, m2, l2) && p in l0 && n !in l0 && nsize >= 0
    requires l1 == l0[n := nsize] && l2 == (l1 - {n})[p := l0[p] + nsize]
    ensures Resized(m0, m2, l0, l2, p, p, l0[p] + nsize)
  {
    assert l2 == (l0 - {p})[p := l0[p] + nsize];
    hide SameIn;
    SameInLess(m, m2, l2, l0);
    SameInBoth(m0, m, m2, l0);
    SameInLess(m0, m2, l0, l0 - {p});
    SameInLess(m0, m2, l0, map[p := l0[p]]);
    SameInCarries(m0, m2, p, l0[p]);
  }

  lemma SameInCarries(m: Mem, m2: Mem, p: int, size: int)
    requires SameIn(m, m2, map[p := size])
    ensures Carried(m, m2, p + 8, p + 8, size - 4)
  {
    forall a | p + 8 <= a < p + 8 + size - 4 ensures m2[a] == m[a] { assert p in map[p := size]; }
  }

  // ---- extending into top ----

  /** set_head(top, rest | PREV_INUSE); set_head_size(p, nb) */
  function IntoTopWrites(m: Mem, p: int, nb: int, rest: int): Mem
  {
    m[p + nb + SIZE := rest + 1][p + SIZE := nb + m[p + SIZE] % 2]
  }

  lemma IntoTopIs(m: Mem, p: int, nb: int, size: int, bit: int)
    requires MINSIZE <= nb && m[p + SIZE] % 2 == bit
    ensures IntoTopWrites(m, p, nb, size - nb) == CarveWrites(m[p + SIZE := size + bit], p, nb + bit, p + nb, size - nb + 1)
  {
    var m1, m2 := IntoTopWrites(m, p, nb, size - nb), CarveWrites(m[p + SIZE := size + bit], p, nb + bit, p + nb, size - nb + 1);
    forall a ensures m2[a] == m1[a] {}
    SameMem(m1, m2);
  }

  lemma IntoTopShape(s: Shape, p: int, nb: int)
    requires Tiled(s) && Placed(s) && Settled(s) && p in s.used && p in s.sz && Next(s.sz, p) == s.top && s.top in s.sz
    requires nb > 0 && s.sz[p] <= nb < s.sz[p] + s.sz[s.top]
    requires Tiled(Fuse(s, p, false)) && p in Fuse(s, p, false).sz
    ensures nb < Fuse(s, p, false).sz[p]
    ensures var t := Carve(Fuse(s, p, false), p, nb);
            && Settled(t) && t.top == p + nb && t.top in t.sz && t.sz[t.top] == s.sz[p] + s.sz[s.top] - nb
            && t.used == s.used && p in t.sz && t.sz[p] == nb
            && (forall y :: y in s.used && y != p && y in s.sz ==> y in t.sz && t.sz[y] == s.sz[y])
  {
    hide Placed, PrevInUse, Tiled, Fuse, Carve;
    UsedFacts(s, p);
    TopTakesShape(s, p);
    var s1 := Fuse(s, p, false);
    CarveTopShape(s1, nb);
    assert s1.used + {p} == s.used;
    forall y | IsFree(Carve(s1, p, nb), y) ensures IsFree(s, y) && y in s.at && Next(s.sz, y) in s.used && Carve(s1, p, nb).sz[y] == s.sz[y] && Carve(s1, p, nb).at == s.at
    {
      CarvedFree(s1, nb, y);
      assert IsFree(s, y);
    }
    hide IsFree;
    SettledLike(s, Carve(s1, p, nb));
  }

  lemma SettledLike(s: Shape, t: Shape)
    requires t.used == s.used
    requires forall y {:trigger IsFree(t, y)} :: IsFree(t, y) ==> y in s.at && y in s.sz && y in t.sz && Next(s.sz, y) in s.used && t.sz[y] == s.sz[y] && t.at == s.at
    ensures Settled(t)
  {
  }

  lemma CarvedFree(s: Shape, k: nat, y: int)
    requires Tiled(s) && s.top in s.sz && 0 < k < s.sz[s.top] && s.top !in s.used && IsFree(Carve(s, s.top, k), y)
    ensures IsFree(s, y) && y != s.top && y in Carve(s, s.top, k).sz && Carve(s, s.top, k).sz[y] == s.sz[y] && Carve(s, s.top, k).at == s.at
  {
    SplitPoint(s, s.top, k);
    hide Tiled;
  }

  /** Chunk p grows over the front of top. */
  lemma IntoTop(m: Mem, s: Shape, blocks: bv32, p: int, nb: int) returns (t: Shape)
    requires Core(m, s, blocks) && Settled(s) && p in s.used && p in s.sz && Next(s.sz, p) == s.top && s.top in s.sz
    requires nb % 8 == 0 && s.sz[p] <= nb && nb + MINSIZE <= s.sz[p] + s.sz[s.top]
    ensures var m2 := IntoTopWrites(m, p, nb, s.sz[p] + s.sz[s.top] - nb);
            && Core(m2, t, blocks) && Settled(t) && SameLive(m, m2, s) && Live(t) == (Live(s) - {p})[p := nb]
            && p in t.used && p in t.sz && t.sz[p] == nb && t.top == p + nb && t.top in t.sz && t.sz[t.top] == s.sz[p] + s.sz[s.top] - nb
  {
    hide Core, SameLive, Tiled, Placed, Settled, PrevInUse, Fuse, Carve, CarveWrites, IntoTopWrites, OnlyHeads;
    CoreChunks(m, s, blocks);
    UsedFacts(s, p);
    SizeAtLeast(m, s, blocks, p);
    FuseCore(m, s, blocks, p, false);
    TopTakesShape(s, p);
    var s1 := Fuse(s, p, false);
    var size := s.sz[p] + s.sz[s.top];
    var m1 := m[p + SIZE := size + PrevInUse(s, p)];
    CoreChunks(m1, s1, blocks);
    IntoTopShape(s, p, nb);
    CarveCore(m1, s1, blocks, p, nb);
    t := Carve(s1, p, nb);
    HeadReads(m, s, blocks, p);
    IntoTopIs(m, p, nb, size, PrevInUse(s, p));
    var m2 := IntoTopWrites(m, p, nb, size - nb);
    OneHead(m, p, size + PrevInUse(s, p));
    HeadWritesLive(m, m1, s, p, p);
    GrownLive(m1, m2, s, t, p);
    LiveTrans(m, m1, m2, s, s);
    assert Moved(s, t, p, p, nb);
    MovedLive(s, t, p, p, nb);
  }

  lemma OneHead(m: Mem, p: int, v: int)
    ensures OnlyHeads(m, m[p + SIZE := v], p, p)
  {
  }

  lemma GrownLive(m: Mem, m2: Mem, s: Shape, t: Shape, p: int)
    requires SameLive(m, m2, t) && t.used == s.used && p in s.sz && p in t.sz && s.sz[p] <= t.sz[p]
    requires forall y :: y in s.used && y != p && y in s.sz ==> y in t.sz && t.sz[y] == s.sz[y]
    ensures SameLive(m, m2, s)
  {
    forall q, a | q in s.used && q in s.sz && InPayload(s.sz, q, a) ensures m2[a] == m[a] { assert InPayload(t.sz, q, a); }
  }

  lemma IntoTopResizes(m: Mem, s: Shape, blocks: bv32, p: int, nb: int) returns (t: Shape)
    requires Core(m, s, blocks) && Settled(s) && p in s.used && p in s.sz && Next(s.sz, p) == s.top && s.top in s.sz
    requires nb % 8 == 0 && s.sz[p] <= nb && nb + MINSIZE <= s.sz[p] + s.sz[s.top]
    ensures var m2 := IntoTopWrites(m, p, nb, s.sz[p] + s.sz[s.top] - nb);
            && Core(m2, t, blocks) && Settled(t) && Resized(m, m2, Live(s), Live(t), p, p, nb) && p in t.sz && t.sz[p] == nb
            && t.top == p + nb && t.top in t.sz && t.sz[t.top] == s.sz[p] + s.sz[s.top] - nb
  {
    hide Core, SameLive, Settled, IntoTopWrites, SameIn, Carried;
    t := IntoTop(m, s, blocks, p, nb);
    var m2 := IntoTopWrites(m, p, nb, s.sz[p] + s.sz[s.top] - nb);
    SameLiveIn(m, m2, s);
    assert p in Live(s) && Live(s)[p] == s.sz[p];
    hide Live;
    SameInLess(m, m2, Live(s), Live(s) - {p});
    SameInLess(m, m2, Live(s), map[p := s.sz[p]]);
    SameInCarries(m, m2, p, s.sz[p]);
  }

  lemma IntoTopInside(m: Mem, q: int, nb: int, rest: int, a: int)
    requires MINSIZE <= nb && q + 8 <= a < q + nb + 4
    ensures IntoTopWrites(m, q, nb, rest)[a] == m[a]
  {
  }

  lemma IntoTopOutside(m: Mem, m2: Mem, q: int, nb: int, rest: int, a: int)
    requires MINSIZE <= nb && m2[a] == m[a] && m2[q + SIZE] == m[q + SIZE]
    ensures IntoTopWrites(m2, q, nb, rest)[a] == IntoTopWrites(m, q, nb, rest)[a]
  {
  }

  lemma IntoTopCopied(m1: Mem, mc: Mem, t: Shape, q: int, src: int, n: int, nb: int, rest: int)
    requires q in t.sz && t.sz[q] == nb && MINSIZE <= nb && n <= nb - 4 && Copied(m1, mc, src, q + 8, n)
    ensures OnlyPayload(IntoTopWrites(m1, q, nb, rest), IntoTopWrites(mc, q, nb, rest), t, q)
  {
    hide IntoTopWrites, WordAligned;
    var m2, m3 := IntoTopWrites(m1, q, nb, rest), IntoTopWrites(mc, q, nb, rest);
    forall a | !InPayload(t.sz, q, a) ensures m3[a] == m2[a] { IntoTopOutside(m1, mc, q, nb, rest, a); }
  }

  lemma IntoTopCarries(m: Mem, m1: Mem, mc: Mem, s: Shape, p: int, q: int, nb: int, rest: int)
    requires SameLive(m, m1, s) && p in s.used && p in s.sz && s.sz[p] <= nb && MINSIZE <= nb
    requires Copied(m1, mc, p + 8, q + 8, s.sz[p] - 4)
    ensures Carried(m, IntoTopWrites(mc, q, nb, rest), p + 8, q + 8, s.sz[p] - 4)
  {
    hide IntoTopWrites, WordAligned, SameLive, Copied;
    forall a | q + 8 <= a < q + 8 + s.sz[p] - 4 && WordAligned(a - (q + 8))
      ensures IntoTopWrites(mc, q, nb, rest)[a] == m[a - (q + 8) + (p + 8)]
    {
      IntoTopInside(mc, q, nb, rest, a);
      CopiedAt(m, m1, mc, s, p, q, a);
    }
  }

  lemma CopiedAt(m0: Mem, m1: Mem, mc: Mem, s: Shape, p: int, q: int, a: int)
    requires SameLive(m0, m1, s) && p in s.used && p in s.sz
    requires Copied(m1, mc, p + 8, q + 8, s.sz[p] - 4) && q + 8 <= a < q + 8 + s.sz[p] - 4 && WordAligned(a - (q + 8))
    ensures mc[a] == m0[a - (q + 8) + (p + 8)]
  {
    hide WordAligned;
    assert InPayload(s.sz, p, a - (q + 8) + (p + 8));
  }

  lemma BackIntoTopExtends(m: Mem, m1: Mem, m2: Mem, m3: Mem, s: Shape, s2: Shape, t: Shape, blocks: bv32, p: int, q: int, nb: int)
    requires SameLive(m, m1, s) && SameLive(m1, m2, s2) && HandedOut(m2, m3, s2, t, blocks, q, nb)
    requires p in Live(s) && Live(s2) == Live(s) - {p}
    ensures Extended(m, m3, s, t, blocks, p, q, nb)
  {
    hide Core, Settled, SameLive, SameIn;
    SameLiveIn(m, m1, s);
    SameLiveIn(m1, m2, s2);
    SameLiveIn(m2, m3, s2);
    hide Live;
    SameInLess(m, m1, Live(s), Live(s) - {p});
    SameInBoth(m, m1, m2, Live(s2));
    SameInBoth(m, m2, m3, Live(s2));
  }

  lemma InLive(s: Shape, p: int)
    requires p in s.used && p in s.sz
    ensures p in Live(s) && Live(s)[p] == s.sz[p]
  {
  }

  /** The chunk before, p and the front of top become chunk q. */
  lemma BackTopExtends(m: Mem, s: Shape, blocks: bv32, p: int, nb: int) returns (t: Shape)
    requires Core(m, s, blocks) && Settled(s) && p in s.used && p in s.sz && Next(s.sz, p) == s.top && s.top in s.sz && PrevInUse(s, p) == 0
    requires p in s.prv && s.prv[p] in s.sz
    requires nb % 8 == 0 && s.sz[p] <= nb && nb + MINSIZE <= s.sz[s.prv[p]] + s.sz[p] + s.sz[s.top]
    ensures var q, size, m1 := s.prv[p], s.sz[s.prv[p]] + s.sz[p] + s.sz[s.top], UnlinkWrites(m, s.prv[p]);
            && Extended(m, IntoTopWrites(m1, q, nb, size - nb), s, t, blocks, p, q, nb) && SameLive(m, m1, s)
            && t.top == q + nb && t.top in t.sz && t.sz[t.top] == size - nb
  {
    hide Core, SameLive, Settled, SettledBut, Tiled, Placed, IntoTopWrites, UnlinkWrites, IsLoose, PrevInUse, Off, CarveWrites, SameIn, Live, Extended;
    CoreChunks(m, s, blocks);
    PrevReady(m, s, blocks, p);
    UsedFacts(s, p);
    SizeAtLeast(m, s, blocks, p);
    var q := s.prv[p];
    OffCore(m, s, blocks, q);
    var s1, m1 := Off(s, q), UnlinkWrites(m, q);
    SizeAtLeast(m1, s1, blocks, q);
    HeadIsOdd(m1, s1, blocks, q);
    var s2 := TopTakesBack(m1, s1, blocks, q);
    var size := s2.sz[q];
    var m2 := m1[q + SIZE := size + 1];
    t := TopTake(m2, s2, blocks, nb);
    CoreChunks(m2, s2, blocks);
    LiveMinus(s, s2, p);
    InLive(s, p);
    IntoTopIs(m1, q, nb, size, 1);
    BackIntoTopExtends(m, m1, m2, IntoTopWrites(m1, q, nb, size - nb), s, s2, t, blocks, p, q, nb);
  }

  /** The same with the data copied before the tags are written. */
  lemma BackTopResizes(m: Mem, mc: Mem, s: Shape, blocks: bv32, p: int, nb: int) returns (t: Shape)
    requires Core(m, s, blocks) && Settled(s) && p in s.used && p in s.sz && Next(s.sz, p) == s.top && s.top in s.sz && PrevInUse(s, p) == 0
    requires p in s.prv && s.prv[p] in s.sz
    requires nb % 8 == 0 && s.sz[p] <= nb && nb + MINSIZE <= s.sz[s.prv[p]] + s.sz[p] + s.sz[s.top]
    requires Copied(UnlinkWrites(m, s.prv[p]), mc, p + 8, s.prv[p] + 8, s.sz[p] - 4)
    ensures var q, size := s.prv[p], s.sz[s.prv[p]] + s.sz[p] + s.sz[s.top];
            var m3 := IntoTopWrites(mc, q, nb, size - nb);
            && Core(m3, t, blocks) && Settled(t) && Resized(m, m3, Live(s), Live(t), p, q, nb) && q in t.sz && t.sz[q] == nb
            && t.top == q + nb && t.top in t.sz && t.sz[t.top] == size - nb
  {
    hide Core, SameLive, Settled, Tiled, Placed, IntoTopWrites, UnlinkWrites, PrevInUse, Copied, SameIn, Carried, Live, OnlyPayload, Resized;
    SizeAtLeast(m, s, blocks, p);
    t := BackTopExtends(m, s, blocks, p, nb);
    var q, size, m1 := s.prv[p], s.sz[s.prv[p]] + s.sz[p] + s.sz[s.top], UnlinkWrites(m, s.prv[p]);
    IntoTopCopied(m1, mc, t, q, p + 8, s.sz[p] - 4, nb, size - nb);
    IntoTopCarries(m, m1, mc, s, p, q, nb, size - nb);
    InLive(s, p);
    CopyCompletes(m, IntoTopWrites(m1, q, nb, size - nb), IntoTopWrites(mc, q, nb, size - nb), s, t, blocks, p, q, nb);
  }

  // ---- cutting a chunk in use in two ----

  lemma CutUsedShape(s: Shape, p: int, k: int)
    requires Tiled(s) && Settled(s) && p in s.used && p in s.sz && p != s.top && 0 < k < s.sz[p]
    ensures p + k !in Live(s)
    ensures var t := Carve(s, p, k);
            && Settled(t) && Live(t) == Live(s)[p := k][p + k := s.sz[p] - k] && p + k in t.used && p in t.used && p in t.sz && p + k in t.sz
            && t.top == s.top && (s.top in s.sz ==> s.top in t.sz && t.sz[s.top] == s.sz[s.top])
            && (forall q :: q in s.used && q in s.sz && q != p ==> q in t.used && q in t.sz && t.sz[q] == s.sz[q])
  {
    SplitPoint(s, p, k);
    var t := Carve(s, p, k);
    hide Tiled;
    assert t.used == s.used + {p + k} && t.sz == s.sz[p := k][p + k := s.sz[p] - k];
    hide Carve, Settled;
    CutUsedSettles(s, t, p, k);
    CutUsedLive(s, t, p, k);
    hide Live;
  }

  lemma CutUsedSettles(s: Shape, t: Shape, p: int, k: int)
    requires p in s.sz && t.used == s.used + {p + k} && t.sz == s.sz[p := k][p + k := s.sz[p] - k] && t.at == s.at && t.top == s.top
    requires Settled(s) && p in s.used
    ensures Settled(t)
  {
    forall y | IsFree(t, y) ensures y in t.at && y + t.sz[y] in t.used { assert IsFree(s, y); }
  }

  lemma CutUsedLive(s: Shape, t: Shape, p: int, k: int)
    requires t.used == s.used + {p + k} && p in s.used && p in s.sz && p + k !in s.sz && t.sz == s.sz[p := k][p + k := s.sz[p] - k]
    requires p != s.top && p + k != s.top && t.top == s.top
    ensures p + k !in Live(s) && Live(t) == Live(s)[p := k][p + k := s.sz[p] - k]
  {
  }

  /** One chunk in use becomes two, each holding its part of the data. */
  lemma CutUsed(m: Mem, s: Shape, blocks: bv32, p: int, k: int) returns (t: Shape)
    requires Core(m, s, blocks) && Settled(s) && p in s.used && p in s.sz && k % 8 == 0 && MINSIZE <= k && k + MINSIZE <= s.sz[p]
    ensures var m2 := CarveWrites(m, p, k + m[p + SIZE] % 2, p + k, s.sz[p] - k + 1);
            && Core(m2, t, blocks) && Settled(t) && SameLive(m, m2, t)
    ensures p + k !in Live(s) && Live(t) == Live(s)[p := k][p + k := s.sz[p] - k] && p + k in t.used && p in t.used && p in t.sz && p + k in t.sz
    ensures t.top == s.top && s.top in s.sz && s.top in t.sz && t.sz[s.top] == s.sz[s.top]
  {
    hide Core, SameLive, Tiled, Placed, Settled, PrevInUse, CarveWrites, Live, Carve;
    CoreChunks(m, s, blocks);
    UsedFacts(s, p);
    HeadReads(m, s, blocks, p);
    CutUsedShape(s, p, k);
    CarveCore(m, s, blocks, p, k);
    t := Carve(s, p, k);
  }

  /** The three tag writes at the end of realloc, on a chunk whose own tags were still stale. */
  function SplitTailWrites(m: Mem, p: int, nb: int, size: int): Mem
  {
    var m1 := m[p + SIZE := nb + m[p + SIZE] % 2][p + nb + SIZE := size - nb + 1];
    m1[p + size + SIZE := WithPrevInUse(m1[p + size + SIZE])]
  }

  lemma SplitTailAt(m: Mem, p: int, nb: int, size: int, bit: int, a: int)
    requires MINSIZE <= nb && nb + MINSIZE <= size && m[p + SIZE] % 2 == bit
    ensures SplitTailWrites(m, p, nb, size)[a] ==
      if a == p + SIZE then nb + bit else if a == p + nb + SIZE then size - nb + 1 else if a == p + size + SIZE then WithPrevInUse(m[a]) else m[a]
  {
    hide WithPrevInUse;
  }

  lemma CarvePatchedAt(m: Mem, p: int, nb: int, size: int, bit: int, a: int)
    requires MINSIZE <= nb && nb + MINSIZE <= size
    ensures CarveWrites(Patched(m, p, size), p, nb + bit, p + nb, size - nb + 1)[a] ==
      if a == p + SIZE then nb + bit else if a == p + nb + SIZE then size - nb + 1 else if a == p + size + SIZE then WithPrevInUse(m[a]) else m[a]
  {
    hide WithPrevInUse, Patched;
    if a != p + SIZE { PatchedAt(m, p, size, a); }
  }

  lemma PatchedBit(m: Mem, p: int, size: int)
    requires MINSIZE <= size && size % 2 == 0
    ensures Patched(m, p, size)[p + SIZE] % 2 == m[p + SIZE] % 2
  {
    hide Patched, WithPrevInUse;
    PatchedAt(m, p, size, p + SIZE);
  }

  lemma SplitTailIs(m: Mem, p: int, nb: int, size: int)
    requires MINSIZE <= nb && nb + MINSIZE <= size && size % 2 == 0
    ensures SplitTailWrites(m, p, nb, size) == CarveWrites(Patched(m, p, size), p, nb + Patched(m, p, size)[p + SIZE] % 2, p + nb, size - nb + 1)
  {
    hide Patched, SplitTailWrites, CarveWrites, WithPrevInUse;
    PatchedBit(m, p, size);
    var bit := m[p + SIZE] % 2;
    var m2, m3 := SplitTailWrites(m, p, nb, size), CarveWrites(Patched(m, p, size), p, nb + bit, p + nb, size - nb + 1);
    forall a ensures m2[a] == m3[a]
    {
      SplitTailAt(m, p, nb, size, bit, a);
      CarvePatchedAt(m, p, nb, size, bit, a);
    }
    SameMem(m3, m2);
  }

  /** Giving back the end of a resized chunk. */
  lemma ResizedLess(m0: Mem, m1: Mem, m2: Mem, l0: LiveMap, l1: LiveMap, l2: LiveMap, p: int, q: int, size: int, size2: int)
    requires Resized(m0, m1, l0, l1, p, q, size) && size2 <= size && l2 == l1[q := size2] && SameIn(m1, m2, l2)
    ensures Resized(m0, m2, l0, l2, p, q, size2)
  {
    hide SameIn, Carried;
    assert l2 == (l0 - {p})[q := size2];
    var n := Least(l0[p], size2) - 4;
    CarriedLess(m0, m1, p + 8, q + 8, Least(l0[p], size) - 4, n);
    SameInLess(m1, m2, l2, l0 - {p});
    SameInBoth(m0, m1, m2, l0 - {p});
    SameInLess(m1, m2, l2, map[q := size2]);
    CarriedThen(m0, m1, m2, p + 8, q, size2, n);
  }

  lemma CarriedLess(m: Mem, m2: Mem, src: int, dst: int, n: int, n2: int)
    requires Carried(m, m2, src, dst, n) && n2 <= n
    ensures Carried(m, m2, src, dst, n2)
  {
    hide WordAligned;
  }

  // ---- copying ----

  lemma CopyAt(m: Mem, m1: Mem, src: int, dst: int, n: int, a: int)
    requires Copied(m, m1, src, dst, n)
    ensures m1[a] == if dst <= a < dst + n && WordAligned(a - dst) then m[a - dst + src] else m[a]
  {
    hide WordAligned;
  }

  lemma CopyStepAt(m: Mem, m1: Mem, src: int, dst: int, i: int, n: int, a: int)
    requires 0 <= i < n && i % 4 == 0 && Copied(m, m1, src, dst, i) && (dst <= src || src + n <= dst)
    ensures WordCopied(m, m1[dst + i := m1[src + i]], src, dst, i + 4, a)
  {
    hide Copied;
    CopyAt(m, m1, src, dst, i, src + i);
    CopyAt(m, m1, src, dst, i, a);
    if dst + i < a < dst + i + 4 { NotAligned(a - dst, i); }
  }

  /** Copying one more word upward, the target below the source or clear of it. */
  lemma CopyStep(m: Mem, m1: Mem, src: int, dst: int, i: int, n: int)
    requires 0 <= i < n && i % 4 == 0 && Copied(m, m1, src, dst, i) && (dst <= src || src + n <= dst)
    ensures Copied(m, m1[dst + i := m1[src + i]], src, dst, i + 4)
  {
    hide WordCopied;
    var m2, k := m1[dst + i := m1[src + i]], i + 4;
    forall a {:trigger WordCopied(m, m2, src, dst, k, a)} ensures WordCopied(m, m2, src, dst, k, a) { CopyStepAt(m, m1, src, dst, i, n, a); }
  }

  lemma NotAligned(d: int, i: int)
    requires i % 4 == 0 && i < d < i + 4
    ensures !WordAligned(d)
  {
  }

  // ---- malloc, copy, free ----

  lemma FreshIsApart(s: Shape, p: int, n: int)
    requires Tiled(s) && p in s.sz && n in s.sz && p != n
    ensures n + s.sz[n] <= p || p + s.sz[p] <= n
  {
    hide Linked;
  }

  lemma MovedByCopy(m0: Mem, m1: Mem, mc: Mem, s0: Shape, s1: Shape, blocks: bv32, p: int, n: int, nsize: int)
    requires HandedOut(m0, m1, s0, s1, blocks, n, nsize) && p in s0.used && p in s0.sz && s0.sz[p] <= nsize
    requires Copied(m1, mc, p + 8, n + 8, s0.sz[p] - 4)
    ensures Core(mc, s1, blocks) && SameIn(m1, mc, Live(s1) - {n}) && Carried(m0, mc, p + 8, n + 8, s0.sz[p] - 4) && p != n
    ensures p in s1.used && p in s1.sz && s1.sz[p] == s0.sz[p]
  {
    hide Core, Settled, SameLive, SameIn, Copied, Carried;
    InLive(s0, p);
    assert p in Live(s1) && Live(s1)[p] == s0.sz[p];
    CopyInside(m1, mc, s1, n, p + 8, s0.sz[p] - 4);
    ClientWrites(m1, mc, s1, blocks, n);
    hide Live;
    CopiedCarries(m0, m1, mc, s0, p, n);
  }

  lemma CopiedCarries(m0: Mem, m1: Mem, mc: Mem, s: Shape, p: int, n: int)
    requires SameLive(m0, m1, s) && p in s.used && p in s.sz && Copied(m1, mc, p + 8, n + 8, s.sz[p] - 4)
    ensures Carried(m0, mc, p + 8, n + 8, s.sz[p] - 4)
  {
    hide SameLive, Copied, WordAligned;
    forall a | n + 8 <= a < n + 8 + s.sz[p] - 4 && WordAligned(a - (n + 8)) ensures mc[a] == m0[a - (n + 8) + (p + 8)]
    { CopiedAt(m0, m1, mc, s, p, n, a); }
  }

  lemma CopyInside(m: Mem, mc: Mem, s: Shape, q: int, src: int, n: int)
    requires q in s.sz && n <= s.sz[q] - 4 && Copied(m, mc, src, q + 8, n)
    ensures OnlyPayload(m, mc, s, q)
  {
  }

  lemma MovedResizes(m0: Mem, m1: Mem, mc: Mem, m2: Mem, l0: LiveMap, l1: LiveMap, l2: LiveMap, p: int, n: int, nsize: int)
    requires p in l0 && n !in l0 && l1 == l0[n := nsize] && l2 == l1 - {p} && l0[p] <= nsize
    requires SameIn(m0, m1, l0) && SameIn(m1, mc, l1 - {n}) && SameIn(mc, m2, l2) && Carried(m0, mc, p + 8, n + 8, l0[p] - 4)
    ensures Resized(m0, m2, l0, l2, p, n, nsize)
  {
    MovedMaps(l0, l1, l2, p, n, nsize);
    var rest, one := l0 - {p}, map[n := nsize];
    hide SameIn, Carried, NoMore;
    SameInLess(m0, m1, l0, rest);
    SameInLess(m1, mc, l1 - {n}, rest);
    SameInLess(mc, m2, l2, rest);
    SameInBoth(m0, m1, mc, rest);
    SameInBoth(m0, mc, m2, rest);
    SameInLess(mc, m2, l2, one);
    CarriedThen(m0, mc, m2, p + 8, n, nsize, l0[p] - 4);
  }

  lemma MovedMaps(l0: LiveMap, l1: LiveMap, l2: LiveMap, p: int, n: int, nsize: int)
    requires p in l0 && n !in l0 && l1 == l0[n := nsize] && l2 == l1 - {p}
    ensures var rest := l0 - {p};
            && l2 == rest[n := nsize] && n !in rest
            && NoMore(rest, l0) && NoMore(rest, l1 - {n}) && NoMore(rest, l2) && NoMore(map[n := nsize], l2)
  {
    assert l2 == (l0 - {p})[n := nsize];
  }

  lemma OnlyOne(m: Mem, m2: Mem, q: int, size: int, a: int)
    requires SameIn(m, m2, map[q := size]) && q + 8 <= a < q + size + 4
    ensures m2[a] == m[a]
  {
    var one := map[q := size];
    assert q in one && one[q] == size;
  }

  lemma CarriedThen(m0: Mem, m1: Mem, m2: Mem, src: int, q: int, size: int, n: int)
    requires Carried(m0, m1, src, q + 8, n) && SameIn(m1, m2, map[q := size]) && n <= size - 4
    ensures Carried(m0, m2, src, q + 8, n)
  {
    hide WordAligned, SameIn;
    var dst := q + 8;
    forall a | dst <= a < dst + n && WordAligned(a - dst) ensures m2[a] == m0[a - dst + src]
    {
      OnlyOne(m1, m2, q, size, a);
      assert m1[a] == m0[a - dst + src];
    }
  }

  lemma CopyNothing(m: Mem, src: int, dst: int)
    ensures Copied(m, m, src, dst, 0)
  {
  }

  lemma InExtended(m: Mem, m2: Mem, s: Shape, t: Shape, blocks: bv32, p: int, q: int, size: int)
    requires Extended(m, m2, s, t, blocks, p, q, size)
    ensures Core(m2, t, blocks) && Settled(t) && q in t.used && q in t.sz && t.sz[q] == size
  {
  }

  /** What realloc reads about the chunk n after p: top, in use, or free and binned. */
  ghost predicate ForwardView(m: Mem, s: Shape, n: int)
  {
    && n in s.sz && n != 0 && m[n + SIZE] - m[n + SIZE] % 4 == s.sz[n] && m[n + SIZE] - m[n + SIZE] % 2 == s.sz[n] && MINSIZE <= s.sz[n] && s.sz[n] % 8 == 0
    && (n != s.top ==> n + s.sz[n] in s.sz && (m[n + s.sz[n] + SIZE] % 2 == 0 <==> n !in s.used) && (n !in s.used ==> n in s.at))
  }

  /** Room of chunk p, in use, with the chunk behind it, if that is free, or with all of top but a
      minimum chunk: enough for nb bytes. */
  ghost predicate FitsForward(s: Shape, p: int, nb: int)
  {
    p in s.sz && Next(s.sz, p) in s.sz && Next(s.sz, p) !in s.used
    && s.sz[p] + s.sz[Next(s.sz, p)] >= (if Next(s.sz, p) == s.top then nb + MINSIZE else nb)
  }

  /** The same with the chunk before it, if that is free: alone or together with the one behind. */
  ghost predicate FitsBackward(s: Shape, p: int, nb: int)
  {
    && p in s.sz && p != s.base && p in s.prv && s.prv[p] in s.sz && s.prv[p] !in s.used
    && (s.sz[s.prv[p]] + s.sz[p] >= nb || FitsForward(s, p, nb - s.sz[s.prv[p]]))
  }

  lemma NoRoomBefore(s: Shape, p: int, nb: int)
    requires PrevInUse(s, p) != 0
    ensures !FitsBackward(s, p, nb)
  {
  }

  lemma RoomBefore(s: Shape, p: int, nb: int)
    requires PrevInUse(s, p) == 0 && p in s.sz && p in s.prv && s.prv[p] in s.sz
    ensures FitsBackward(s, p, nb) <==> s.sz[s.prv[p]] + s.sz[p] >= nb || FitsForward(s, p, nb - s.sz[s.prv[p]])
  {
  }

  lemma ForwardFacts(m: Mem, s: Shape, blocks: bv32, p: int)
    requires Core(m, s, blocks) && Settled(s) && p in s.used && p in s.sz
    ensures BINS_END <= p && p % 8 == 0 && MINSIZE <= s.sz[p] && s.sz[p] % 8 == 0
    ensures ForwardView(m, s, p + s.sz[p])
  {
    hide Core, PrevInUse;
    CoreChunks(m, s, blocks);
    UsedFacts(s, p);
    var n := p + s.sz[p];
    HeadReads(m, s, blocks, p);
    HeadReads(m, s, blocks, n);
    if n != s.top {
      NextChunk(s, n);
      NextUses(s, n);
      HeadReads(m, s, blocks, n + s.sz[n]);
      assert n !in s.used ==> IsFree(s, n);
    }
    hide Tiled, Placed;
  }

  lemma WordsToCopy(m: Mem, s: Shape, blocks: bv32, p: int)
    requires Core(m, s, blocks) && p in s.sz
    ensures (s.sz[p] - 4) % 4 == 0 && s.sz[p] - 4 >= 0 && s.top != INITIAL_TOP
  {
    hide Core, PrevInUse;
    HeadReads(m, s, blocks, p);
    EightIsFour(s.sz[p]);
  }

  lemma EightIsFour(x: int)
    requires x % 8 == 0
    ensures (x - 4) % 4 == 0
  {
  }

  lemma CutThenFreed(live: LiveMap, p: int, nb: int, r: int, rest: int)
    requires r !in live && r != p
    ensures live[p := nb][r := rest] - {r} == live[p := nb]
  {
  }

  lemma LiveHas(s: Shape, p: int, size: int)
    requires p in Live(s) && Live(s)[p] == size
    ensures p in s.used && p in s.sz && s.sz[p] == size
  {
  }

  lemma LiveKeeps(s: Shape, p: int, size: int)
    requires p in s.used && p in s.sz && s.sz[p] == size
    ensures Live(s) == Live(s)[p := size]
  {
  }

  lemma StillLive(m0: Mem, m: Mem, s0: Shape, s: Shape, blocks: bv32, n: int, nsize: int, p: int)
    requires HandedOut(m0, m, s0, s, blocks, n, nsize) && p in s0.used && p in s0.sz
    ensures p in s.used && p in s.sz && s.sz[p] == s0.sz[p] && n in s.used && n in s.sz && s.sz[n] == nsize && p != n && Tiled(s)
  {
    CoreParts(m, s, blocks);
    hide Core, Tiled, Settled, SameLive;
    assert p in Live(s0) && p in Live(s) && Live(s)[p] == s0.sz[p];
  }

  lemma MovedLiveResizes(m0: Mem, m1: Mem, mc: Mem, m2: Mem, s0: Shape, s1: Shape, s2: Shape, blocks: bv32, p: int, n: int, nsize: int)
    requires HandedOut(m0, m1, s0, s1, blocks, n, nsize) && p in s0.used && p in s0.sz && s0.sz[p] <= nsize
    requires Live(s2) == Live(s1) - {p} && SameLive(mc, m2, s2) && SameIn(m1, mc, Live(s1) - {n})
    requires Carried(m0, mc, p + 8, n + 8, s0.sz[p] - 4)
    ensures Resized(m0, m2, Live(s0), Live(s2), p, n, nsize)
  {
    hide Core, Settled, SameLive, SameIn, Carried, Resized;
    InLive(s0, p);
    SameLiveIn(m0, m1, s0);
    SameLiveIn(mc, m2, s2);
    hide Live;
    MovedResizes(m0, m1, mc, m2, Live(s0), Live(s1), Live(s2), p, n, nsize);
  }

  /** On a chunk whose tags are in order the last two writes of realloc change nothing. */
  lemma PatchedSame(m: Mem, s: Shape, blocks: bv32, p: int)
    requires Core(m, s, blocks) && p in s.used && p in s.sz
    ensures Patched(m, p, s.sz[p]) == m
  {
    hide Core, PrevInUse, WithPrevInUse;
    AfterUsed(m, s, blocks, p);
    HeadReads(m, s, blocks, p);
    WriteSame(m, p + SIZE, s.sz[p] + m[p + SIZE] % 2);
    WriteSame(m, p + s.sz[p] + SIZE, m[p + s.sz[p] + SIZE]);
  }

  lemma ResizedToSame(m: Mem, live: LiveMap, p: int)
    requires p in live
    ensures Resized(m, m, live, live, p, p, live[p])
  {
  }

  lemma MovedHas(m0: Mem, m: Mem, live0: LiveMap, s: Shape, p: int, q: int, size: int)
    requires Resized(m0, m, live0, Live(s), p, q, size)
    ensures q in s.used && q in s.sz && s.sz[q] == size
  {
    assert q in Live(s) && Live(s)[q] == size;
  }

  lemma LeaderGone(live: LiveMap, l0: LiveMap, l1: LiveMap, l2: LiveMap, p: int, lead: int, rest: int)
    requires p !in live && lead != 0 && p + lead !in l0 && l0 == live[p := lead + rest]
    requires l1 == l0[p := lead][p + lead := rest] && l2 == l1 - {p}
    ensures p + lead !in live && l2 == live[p + lead := rest] && NoMore(live, l2)
    ensures p + lead in l2 && l2[p + lead] == rest && forall q :: q in l2 ==> q in l1 && l1[q] == l2[q]
  {
  }

  lemma HandedOutLive(m: Mem, m2: Mem, s: Shape, t: Shape, blocks: bv32, p: int, size: int)
    requires HandedOut(m, m2, s, t, blocks, p, size)
    ensures SameIn(m, m2, Live(s)) && p !in Live(s) && Live(t) == Live(s)[p := size] && p in t.used && p in t.sz && t.sz[p] == size
  {
    hide Core, Settled, SameLive, Live, SameIn;
    SameLiveIn(m, m2, s);
  }

  lemma SameInRefl(m: Mem, live: LiveMap)
    ensures SameIn(m, m, live)
  {
  }
}
