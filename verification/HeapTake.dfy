/** Handing chunks out: the whole of a free chunk, the front of one, or the front of top. */
module HeapTake {
  import opened HeapSizes
  import opened HeapShape
  import opened HeapMemory
  import opened HeapSteps

  /** p has been handed out with the given size; everything else clients hold is untouched. */
  ghost predicate HandedOut(m: Mem, m2: Mem, s: Shape, t: Shape, blocks: bv32, p: int, size: int)
  {
    && Core(m2, t, blocks) && Settled(t) && SameLive(m, m2, s) && p !in Live(s) && Live(t) == Live(s)[p := size]
    && BINS_END <= p && p % 8 == 0 && p in t.used && p in t.sz && t.sz[p] == size
  }

  lemma LivePlus(s: Shape, t: Shape, p: int, size: int)
    requires t.used == s.used + {p} && p !in s.used && p in t.sz && t.sz[p] == size && s.used <= s.sz.Keys
    requires forall q :: q in s.used && q in s.sz ==> q in t.sz && t.sz[q] == s.sz[q]
    ensures p !in Live(s) && Live(t) == Live(s)[p := size]
  {
    forall q | q in Live(s)[p := size] ensures q in Live(t) && Live(t)[q] == Live(s)[p := size][q]
    {
      if q != p { assert q in s.used && q in s.sz; }
    }
    forall q | q in Live(t) ensures q in Live(s)[p := size] {}
  }

  // ---- a whole chunk ----

  /** unlink the chunk and set the in-use bit in its successor n. */
  function TakeWrites(m: Mem, p: int, n: int, head: int): Mem
  {
    UnlinkWrites(m, p)[n + SIZE := head]
  }

  lemma TakeReads(m: Mem, s: Shape, blocks: bv32, p: int)
    requires Core(m, s, blocks) && p in s.at
    ensures p in s.sz && Next(s.sz, p) in s.sz && p !in s.used
    ensures m[Next(s.sz, p) + SIZE] == s.sz[Next(s.sz, p)] && UnlinkWrites(m, p)[Next(s.sz, p) + SIZE] == s.sz[Next(s.sz, p)]
  {
    hide Core, SameLive, Tiled, Placed, Off, UnlinkWrites, Heads;
    CoreParts(m, s, blocks);
    OffCore(m, s, blocks, p);
    CoreParts(UnlinkWrites(m, p), Off(s, p), blocks);
    NextHeadOfLoose(UnlinkWrites(m, p), Off(s, p), p);
    NextHeadOfFree(m, s, p);
  }

  lemma TakeSettles(s: Shape, p: int)
    requires Tiled(s) && Placed(s) && Settled(s) && p in s.at && p in s.sz
    ensures Settled(WithUse(Off(s, p), p, true))
  {
    hide Tiled, Placed, Settled, SettledBut, Off, WithUse;
    SettledIsBut(s);
    OffSettles(s, {}, p);
    assert {} + {p} == {p};
    OffTiled(s, p);
    UseSettles(Off(s, p), p);
  }

  lemma OffTiled(s: Shape, p: int)
    requires Tiled(s) && Placed(s) && p in s.at
    ensures Tiled(Off(s, p))
  {
    hide Placed, Off, Bounded, Linked, Apart;
  }

  lemma TakeWhole(m: Mem, s: Shape, blocks: bv32, p: int) returns (t: Shape)
    requires Core(m, s, blocks) && Settled(s) && p in s.at
    ensures p in s.sz && Next(s.sz, p) in s.sz
    ensures HandedOut(m, TakeWrites(m, p, Next(s.sz, p), s.sz[Next(s.sz, p)] + 1), s, t, blocks, p, s.sz[p])
    ensures t.top == s.top && t.sz == s.sz
  {
    hide Core, Settled, SettledBut, SameLive, Tiled, Placed, Off, UnlinkWrites, Live, Heads;
    CoreChunks(m, s, blocks);
    TakeReads(m, s, blocks, p);
    OffCore(m, s, blocks, p);
    var s1, m1, n := Off(s, p), UnlinkWrites(m, p), Next(s.sz, p);
    UseCore(m1, s1, blocks, p, true);
    t := WithUse(s1, p, true);
    var m2 := m1[n + SIZE := s.sz[n] + 1];
    TakeSettles(s, p);
    LiveSameShape(m1, m2, s1, s);
    LiveTrans(m, m1, m2, s, s);
    LivePlus(s, t, p, s.sz[p]);
    HeadReads(m, s, blocks, p);
  }

  lemma NextHeadOfFree(m: Mem, s: Shape, n: int)
    requires Tiled(s) && Heads(m, s) && IsFree(s, n)
    ensures Next(s.sz, n) in s.sz && m[Next(s.sz, n) + SIZE] == s.sz[Next(s.sz, n)]
  {
    NextChunk(s, n);
    hide Tiled;
  }

  /** Writing a size word and unlinking can be done in either order. */
  lemma UnlinkPastHead(m: Mem, s: Shape, blocks: bv32, p: int, x: int, v: int)
    requires Core(m, s, blocks) && p in s.at && x in s.sz
    ensures UnlinkWrites(m[x + SIZE := v], p) == UnlinkWrites(m, p)[x + SIZE := v]
  {
    hide Core, Tiled, Placed, UnlinkWrites, BinNode;
    CoreParts(m, s, blocks);
    var i: int, j: int := s.at[p], Pos(s, p);
    WalkEnds(m, s, blocks, i);
    WalkLinks(m, s, blocks, i, j);
    BinNodeIsNode(s, i, j - 1);
    BinNodeIsNode(s, i, j + 1);
    NodeWordsPrivate(s, m[p + BK], x);
    NodeWordsPrivate(s, m[p + FD], x);
    NodeWordsPrivate(s, p, x);
    HeadPastUnlink(m, p, x + SIZE, v);
  }

  lemma BinNodeIsNode(s: Shape, i: int, j: int)
    requires Tiled(s) && Placed(s) && 1 <= i < NAV
    ensures |s.bins| == NAV && IsNode(s, BinNode(s, i, j))
  {
    BinIsSpaced(s, i);
    hide Tiled;
  }

  lemma HeadPastUnlink(m: Mem, p: int, a: int, v: int)
    requires a != m[p + FD] + BK && a != m[p + BK] + FD && a != p + FD && a != p + BK
    ensures UnlinkWrites(m[a := v], p) == UnlinkWrites(m, p)[a := v]
  {
    hide UnlinkWrites;
    var w := m[a := v];
    assert w[p + FD] == m[p + FD] && w[p + BK] == m[p + BK];
    var m1, m2 := UnlinkWrites(w, p), UnlinkWrites(m, p)[a := v];
    forall x ensures m2[x] == m1[x]
    {
      UnlinkAt(m, p, x);
      UnlinkAt(w, p, x);
      if x == a { UnlinkAt(m, p, a); }
    }
    SameMem(m1, m2);
  }

  // ---- the front of a chunk, the rest becoming the last remainder ----

  /** Size words of the front and of the rest, then the rest's foot. */
  function CutWrites(m: Mem, p: int, nb: int, size: int): Mem
  {
    CarveWrites(m, p, nb + 1, p + nb, size - nb + 1)[p + size := size - nb]
  }

  /** The rest r of a cut chunk, its tags written, on no list yet. */
  ghost predicate RestHeld(m2: Mem, t: Shape, blocks: bv32, r: int)
  {
    && Core(m2, t, blocks) && IsLoose(t, r) && SettledBut(t, {r}) && Walled(t, r) && m2[r + t.sz[r]] == t.sz[r]
  }

  lemma CutTags(m: Mem, s: Shape, blocks: bv32, p: int, nb: int)
    requires Core(m, s, blocks) && IsLoose(s, p) && PrevInUse(s, p) == 1 && SettledBut(s, {p}) && p + s.sz[p] in s.used
    requires nb % 8 == 0 && MINSIZE <= nb && nb + MINSIZE <= s.sz[p]
    ensures var m1, t := CarveWrites(m, p, nb + 1, p + nb, s.sz[p] - nb + 1), Carve(s, p, nb);
            Core(m1, t, blocks) && SameLive(m, m1, t) && IsLoose(t, p + nb) && SettledBut(t, {p + nb}) && Walled(t, p + nb) && p + nb in t.sz && t.sz[p + nb] == s.sz[p] - nb
  {
    hide Core, SameLive, Tiled, Placed, SettledBut, Carve, CarveWrites, PrevInUse, IsLoose;
    LooseFacts(s, p);
    CoreParts(m, s, blocks);
    CarveCore(m, s, blocks, p, nb);
    CarveSettles(s, p, nb);
    CarveIsLoose(s, p, nb);
  }

  lemma CutCore(m: Mem, s: Shape, blocks: bv32, p: int, nb: int) returns (t: Shape)
    requires Core(m, s, blocks) && IsLoose(s, p) && PrevInUse(s, p) == 1 && SettledBut(s, {p}) && p + s.sz[p] in s.used
    requires nb % 8 == 0 && MINSIZE <= nb && nb + MINSIZE <= s.sz[p]
    ensures RestHeld(CutWrites(m, p, nb, s.sz[p]), t, blocks, p + nb) && SameLive(m, CutWrites(m, p, nb, s.sz[p]), s)
    ensures t == Carve(s, p, nb)
  {
    hide Core, SameLive, Tiled, Placed, SettledBut, Carve, CarveWrites, PrevInUse, IsLoose, Walled;
    LooseFacts(s, p);
    CoreParts(m, s, blocks);
    CutTags(m, s, blocks, p, nb);
    CarveIsLoose(s, p, nb);
    t := Carve(s, p, nb);
    var m1 := CarveWrites(m, p, nb + 1, p + nb, s.sz[p] - nb + 1);
    var m2, r := CutWrites(m, p, nb, s.sz[p]), p + nb;
    assert r + t.sz[r] == p + s.sz[p] && m2 == m1[r + t.sz[r] := s.sz[p] - nb];
    hide *;
    FootCore(m1, t, blocks, r, s.sz[p] - nb);
    RestIsHeld(m2, t, blocks, r);
    LiveTrans(m, m1, m2, t, t);
    CarveLive(m, m2, s, t, p, nb);
  }

  lemma RestIsHeld(m2: Mem, t: Shape, blocks: bv32, r: int)
    requires Core(m2, t, blocks) && IsLoose(t, r) && SettledBut(t, {r}) && Walled(t, r) && m2[r + t.sz[r]] == t.sz[r]
    ensures RestHeld(m2, t, blocks, r)
  {
  }

  lemma LooseFacts(s: Shape, p: int)
    requires IsLoose(s, p) && PrevInUse(s, p) == 1 && p + s.sz[p] in s.used
    ensures p in s.sz && p !in s.at && p !in s.used && p != s.top && Walled(s, p)
  {
    hide PrevInUse;
  }

  lemma CarveIsLoose(s: Shape, p: int, k: nat)
    requires Tiled(s) && Placed(s) && IsLoose(s, p) && 0 < k < s.sz[p]
    ensures var t := Carve(s, p, k);
            && IsLoose(t, p + k) && t.sz[p + k] == s.sz[p] - k && p in t.sz && t.sz[p] == k && t.used == s.used + {p}
            && t.at == s.at && t.bins == s.bins && t.top == s.top
            && (forall q :: q in s.sz && q != p ==> q in t.sz && t.sz[q] == s.sz[q])
  {
    SplitPoint(s, p, k);
    if p + k in s.at { BinnedIsChunk(s, p + k); }
    assert p + k !in s.used by { UsedAreChunks(s); }
    hide Tiled, Placed;
  }

  lemma CarveLive(m: Mem, m2: Mem, s: Shape, t: Shape, p: int, k: nat)
    requires SameLive(m, m2, t) && t.used == s.used + {p} && p !in s.used
    requires forall q :: q in s.sz && q != p ==> q in t.sz && t.sz[q] == s.sz[q]
    ensures SameLive(m, m2, s)
  {
    forall q, a | q in s.used && q in s.sz && InPayload(s.sz, q, a) ensures m2[a] == m[a]
    {
      assert q in t.used && q in t.sz && InPayload(t.sz, q, a);
    }
  }

  /** Unlink p, cut it after nb bytes, and make the rest the last remainder. */
  function SplitWrites(m: Mem, p: int, nb: int, size: int): Mem
  {
    LastWrites(CutWrites(UnlinkWrites(m, p), p, nb, size), p + nb)
  }

  lemma SlotAfterOff(s: Shape, p: int)
    requires Placed(s) && p in s.at && (s.at[p] == LAST_REMAINDER || s.bins[LAST_REMAINDER] == [])
    ensures |Off(s, p).bins| == NAV && Off(s, p).bins[LAST_REMAINDER] == []
  {
    assert Homed(s, p) && |s.bins[LAST_REMAINDER]| <= 1;
    if s.at[p] != LAST_REMAINDER { EmptySlot(s, p); }
  }

  /** A binned chunk off its list, between neighbours in use. */
  lemma OffIsWalled(s: Shape, p: int)
    requires Tiled(s) && Placed(s) && Settled(s) && p in s.at && p in s.sz
    ensures var t := Off(s, p); IsLoose(t, p) && PrevInUse(t, p) == 1 && SettledBut(t, {p}) && p + t.sz[p] in t.used && p !in s.used
  {
    hide Tiled, Placed, Settled, SettledBut, PrevInUse, Off, IsFree;
    BinnedIsChunk(s, p);
    FreeIsWalled(s, p);
    OffPlaced(s, p);
    OffKeepsPrevInUse(s, p, p);
    SettledIsBut(s);
    OffSettles(s, {}, p);
    assert {} + {p} == {p};
    BinnedIsUnused(s, p);
  }

  lemma BinnedIsUnused(s: Shape, p: int)
    requires Placed(s) && p in s.at
    ensures p in s.sz && p !in s.used && p != s.top
  {
    BinnedIsChunk(s, p);
    hide Placed;
  }

  lemma SplitTake(m: Mem, s: Shape, blocks: bv32, p: int, nb: int) returns (t: Shape)
    requires Core(m, s, blocks) && Settled(s) && p in s.at && p in s.sz
    requires s.at[p] == LAST_REMAINDER || (|s.bins| == NAV && s.bins[LAST_REMAINDER] == [])
    requires nb % 8 == 0 && MINSIZE <= nb && nb + MINSIZE <= s.sz[p]
    ensures HandedOut(m, SplitWrites(m, p, nb, s.sz[p]), s, t, blocks, p, nb) && t.top == s.top
    ensures s.top in s.sz && s.top in t.sz && t.sz[s.top] == s.sz[s.top]
  {
    hide Core, SameLive, Settled, Tiled, Placed, SettledBut, Off, Carve, UnlinkWrites, LinkWrites, CutWrites, PrevInUse, IsLoose, Live, RestHeld, BinInto, Walled;
    CoreChunks(m, s, blocks);
    OffCore(m, s, blocks, p);
    OffIsWalled(s, p);
    SlotAfterOff(s, p);
    BinnedIsUnused(s, p);
    HeadReads(m, s, blocks, p);
    var s1, m1, r := Off(s, p), UnlinkWrites(m, p), p + nb;
    CoreChunks(m1, s1, blocks);
    CarveIsLoose(s1, p, nb);
    var s2 := CutCore(m1, s1, blocks, p, nb);
    var m2 := CutWrites(m1, p, nb, s.sz[p]);
    var m3 := LastWrites(m2, r);
    LiveSameShape(m1, m2, s1, s);
    LiveTrans(m, m1, m2, s, s);
    RestToLast(m2, s2, blocks, r);
    t := BinInto(s2, r, LAST_REMAINDER, 0);
    CarveLive(m2, m3, s, s2, p, nb);
    LiveTrans(m, m2, m3, s, s);
    LivePlus(s, t, p, nb);
  }

  /** The held rest of a cut fills the empty last remainder's slot. */
  lemma RestToLast(m: Mem, s: Shape, blocks: bv32, r: int)
    requires RestHeld(m, s, blocks, r) && |s.bins| == NAV && s.bins[LAST_REMAINDER] == []
    ensures var t := BinInto(s, r, LAST_REMAINDER, 0);
            Core(LastWrites(m, r), t, blocks) && Settled(t) && SameLive(m, LastWrites(m, r), s)
  {
    hide Core, SameLive, Settled, SettledBut, LinkWrites, IsLoose, Walled, BinInto;
    CoreParts(m, s, blocks);
    LinkCore(m, s, blocks, LAST_REMAINDER, 0, r);
    BinSettles(s, r, LAST_REMAINDER, 0);
  }

  lemma CutPastLast(m: Mem, p: int, nb: int, size: int)
    requires BINS_END <= p && p % 8 == 0 && nb % 8 == 0 && MINSIZE <= nb && nb + MINSIZE <= size && size % 8 == 0
    ensures LastWrites(CutWrites(m, p, nb, size), p + nb) == CutWrites(LastWrites(m, p + nb), p, nb, size)
  {
    hide LinkWrites;
    var r := p + nb;
    var m1 := m[p + SIZE := nb + 1];
    var m2 := m1[r + SIZE := size - nb + 1];
    LastCommutes(m, r, p + SIZE, nb + 1);
    LastCommutes(m1, r, r + SIZE, size - nb + 1);
    LastCommutes(m2, r, p + size, size - nb);
  }

  /** set_head and set_foot of the rest. */
  function RestWrites(m: Mem, r: int, rest: int): Mem
  {
    m[r + SIZE := rest + 1][r + rest := rest]
  }

  /** The order in which malloc splits a chunk from a bin. */
  function SplitBinWrites(m: Mem, p: int, nb: int, size: int): Mem
  {
    RestWrites(LastWrites(UnlinkWrites(m[p + SIZE := nb + 1], p), p + nb), p + nb, size - nb)
  }

  /** The order in which malloc splits the last remainder again: no unlink. */
  function ResplitWrites(m: Mem, p: int, nb: int, size: int): Mem
  {
    RestWrites(LastWrites(m[p + SIZE := nb + 1], p + nb), p + nb, size - nb)
  }

  lemma HeadThenCut(m: Mem, p: int, nb: int, size: int)
    requires BINS_END <= p && p % 8 == 0 && nb % 8 == 0 && MINSIZE <= nb && nb + MINSIZE <= size && size % 8 == 0
    ensures ResplitWrites(m, p, nb, size) == LastWrites(CutWrites(m, p, nb, size), p + nb)
  {
    hide LinkWrites;
    CutPastLast(m, p, nb, size);
    LastCommutes(m, p + nb, p + SIZE, nb + 1);
  }

  lemma SplitBinIs(m: Mem, s: Shape, blocks: bv32, p: int, nb: int)
    requires Core(m, s, blocks) && p in s.at && p in s.sz
    requires nb % 8 == 0 && MINSIZE <= nb && nb + MINSIZE <= s.sz[p]
    ensures SplitBinWrites(m, p, nb, s.sz[p]) == SplitWrites(m, p, nb, s.sz[p])
  {
    hide Core, LinkWrites, UnlinkWrites, CutWrites;
    HeadReads(m, s, blocks, p);
    UnlinkPastHead(m, s, blocks, p, p, nb + 1);
    HeadThenCut(UnlinkWrites(m, p), p, nb, s.sz[p]);
    hide ResplitWrites;
  }

  lemma ResplitIs(m: Mem, s: Shape, blocks: bv32, p: int, nb: int)
    requires Core(m, s, blocks) && p in s.at && p in s.sz && s.at[p] == LAST_REMAINDER
    requires nb % 8 == 0 && MINSIZE <= nb && nb + MINSIZE <= s.sz[p]
    ensures ResplitWrites(m, p, nb, s.sz[p]) == SplitWrites(m, p, nb, s.sz[p])
  {
    hide Core, LinkWrites, UnlinkWrites, CutWrites, ResplitWrites, Off;
    HeadReads(m, s, blocks, p);
    CoreParts(m, s, blocks);
    ReplaceLast(m, s, blocks, p, p + nb);
    HeadThenCut(m, p, nb, s.sz[p]);
    CutPastLast(m, p, nb, s.sz[p]);
    CutPastLast(UnlinkWrites(m, p), p, nb, s.sz[p]);
  }

  // ---- top ----

  lemma TopTake(m: Mem, s: Shape, blocks: bv32, nb: int) returns (t: Shape)
    requires Core(m, s, blocks) && Settled(s) && s.top != INITIAL_TOP && s.top in s.sz
    requires nb % 8 == 0 && MINSIZE <= nb && nb + MINSIZE <= s.sz[s.top]
    ensures HandedOut(m, CarveWrites(m, s.top, nb + 1, s.top + nb, s.sz[s.top] - nb + 1), s, t, blocks, s.top, nb)
    ensures t.top == s.top + nb && t.top in t.sz && t.sz[t.top] == s.sz[s.top] - nb
  {
    hide Core, SameLive, Settled, Tiled, Placed, Carve, CarveWrites, PrevInUse, Live;
    CoreChunks(m, s, blocks);
    TopIsWalled(s);
    BinnedIsNotTop(s);
    TopIsUnused(s);
    HeadReads(m, s, blocks, s.top);
    CarveCore(m, s, blocks, s.top, nb);
    CarveTopSettles(s, nb);
    CarveTopShape(s, nb);
    t := Carve(s, s.top, nb);
    CarveLive(m, CarveWrites(m, s.top, nb + 1, s.top + nb, s.sz[s.top] - nb + 1), s, t, s.top, nb);
    LivePlus(s, t, s.top, nb);
  }

  lemma TopIsUnused(s: Shape)
    requires Tiled(s) && s.top != INITIAL_TOP
    ensures s.top !in s.used
  {
    hide Bounded, Linked, Apart;
  }

  lemma CarveTopShape(s: Shape, k: nat)
    requires Tiled(s) && s.top in s.sz && 0 < k < s.sz[s.top] && s.top !in s.used
    ensures var t := Carve(s, s.top, k);
            && s.top in t.sz && t.sz[s.top] == k && t.top == s.top + k && t.top in t.sz && t.sz[t.top] == s.sz[s.top] - k
            && t.used == s.used + {s.top}
            && (forall q :: q in s.sz && q != s.top ==> q in t.sz && t.sz[q] == s.sz[q])
  {
    SplitPoint(s, s.top, k);
    hide Tiled;
  }

  /** The first extension: an arena that is one top chunk. */
  lemma NewArena(m: Mem, s: Shape, blocks: bv32, p: int, size: int) returns (t: Shape)
    requires Core(m, s, blocks) && s.top == INITIAL_TOP && Legal(p, size)
    ensures Core(m[p + SIZE := size + 1], t, blocks) && Settled(t) && SameLive(m, m[p + SIZE := size + 1], s)
    ensures t.sz == map[p := size] && t.used == {} && t.top == p && t.at == s.at && t.bins == s.bins && s.at == map[] && Live(s) == map[] == Live(t)
  {
    var m2 := m[p + SIZE := size + 1];
    t := Shape(map[p := size], {}, map[], s.bins, s.at, p, p);
    NothingBinned(s);
    assert Tiled(t) && Heads(m2, t);
    hide Tiled, Heads;
    assert Quiet(m, m2, s);
    QuietKeepsLists(m, m2, s);
    EmptyPlaced(s, t);
    hide Placed, Rings, Quiet;
  }

  lemma NothingBinned(s: Shape)
    requires Tiled(s) && Placed(s) && s.top == INITIAL_TOP
    ensures s.at == map[] && s.used == {} && s.sz == map[]
  {
    hide Bounded, Linked, Apart;
    forall p | p in s.at ensures false { BinnedIsChunk(s, p); }
  }

  lemma EmptyArena(m: Mem, s: Shape, blocks: bv32)
    requires Core(m, s, blocks) && s.top == INITIAL_TOP
    ensures s.at == map[]
  {
    CoreParts(m, s, blocks);
    hide Core, Tiled, Placed;
    NothingBinned(s);
  }

  lemma EmptyPlaced(s: Shape, t: Shape)
    requires Placed(s) && s.at == map[] && t.at == s.at && t.bins == s.bins
    ensures Placed(t)
  {
    hide BinIndex;
    forall i | 0 <= i < NAV ensures Members(t.at, t.bins[i], i) && Descending(t.sz, t.bins[i])
    {
      assert Members(s.at, s.bins[i], i);
    }
  }

  lemma NoLive(m: Mem, m2: Mem, s: Shape)
    requires s.used == {}
    ensures SameLive(m, m2, s)
  {
  }

  lemma LiveEqual(m: Mem, m2: Mem, s: Shape, t: Shape)
    requires SameLive(m, m2, t) && Live(s) == Live(t)
    ensures SameLive(m, m2, s)
  {
    forall q, a | q in s.used && q in s.sz && InPayload(s.sz, q, a) ensures m2[a] == m[a]
    {
      assert q in Live(s);
      assert InPayload(t.sz, q, a);
    }
  }

  /** Handing out after steps clients cannot see. */
  lemma HandedOutChain(m0: Mem, m1: Mem, m2: Mem, s0: Shape, s1: Shape, t: Shape, blocks: bv32, p: int, size: int)
    requires SameLive(m0, m1, s0) && Live(s1) == Live(s0) && HandedOut(m1, m2, s1, t, blocks, p, size)
    ensures HandedOut(m0, m2, s0, t, blocks, p, size)
  {
    hide Core, Settled;
    LiveEqual(m1, m2, s0, s1);
    forall q, a | q in s0.used && q in s0.sz && InPayload(s0.sz, q, a) ensures m2[a] == m0[a] {}
    hide Live;
  }
}
