/** Whole steps of the allocator on memory and shape together, and what they do to the
    between-operations property that free chunks are binned and fully coalesced. */
module HeapSteps {
  import opened HeapSizes
  import opened HeapShape
  import opened HeapMemory

  // ---- reading tags ----

  lemma HeadReads(m: Mem, s: Shape, blocks: bv32, p: int)
    requires Core(m, s, blocks) && p in s.sz
    ensures m[p + SIZE] % 2 == PrevInUse(s, p)
    ensures m[p + SIZE] - m[p + SIZE] % 2 == s.sz[p] && m[p + SIZE] - m[p + SIZE] % 4 == s.sz[p]
    ensures BINS_END <= p && p % 8 == 0 && s.sz[p] % 8 == 0 && MINSIZE <= s.sz[p]
    ensures s.top in s.sz && s.top != INITIAL_TOP
  {
    ChunkIsLegal(m, s, blocks, p);
    PrevInUseIsBit(s, p);
    hide *;
    TagSplits(m[p + SIZE], s.sz[p], PrevInUse(s, p));
  }

  lemma ChunkIsLegal(m: Mem, s: Shape, blocks: bv32, p: int)
    requires Core(m, s, blocks) && p in s.sz
    ensures m[p + SIZE] == s.sz[p] + PrevInUse(s, p) && BINS_END <= p && p % 8 == 0 && s.sz[p] % 8 == 0 && MINSIZE <= s.sz[p]
    ensures s.top in s.sz && s.top != INITIAL_TOP
  {
    hide Placed, Feet, Rings, Marks, Linked, Apart, PrevInUse;
    assert Legal(p, s.sz[p]);
  }

  /** A size word is the size with the bit below it. */
  lemma TagSplits(tag: int, size: int, bit: int)
    requires tag == size + bit && size % 8 == 0 && 0 <= bit <= 1
    ensures tag % 2 == bit && tag - tag % 2 == size && tag - tag % 4 == size
  {
  }

  lemma SizeAtLeast(m: Mem, s: Shape, blocks: bv32, p: int)
    requires Core(m, s, blocks) && p in s.sz
    ensures BINS_END <= p && MINSIZE <= s.sz[p]
  {
    hide Core, PrevInUse;
    HeadReads(m, s, blocks, p);
  }

  lemma PrevInUseIsBit(s: Shape, p: int)
    ensures PrevInUse(s, p) == 0 || PrevInUse(s, p) == 1
  {
  }

  lemma NextChunk(s: Shape, p: int)
    requires Tiled(s) && p in s.sz && p != s.top
    ensures p + s.sz[p] in s.sz && s.prv[p + s.sz[p]] == p && p + s.sz[p] != s.base && p < p + s.sz[p] <= s.top
  {
    assert Next(s.sz, p) in s.sz;
    hide Apart;
  }

  lemma PrevChunk(s: Shape, p: int)
    requires Tiled(s) && p in s.sz && p != s.base
    ensures p in s.prv && s.prv[p] in s.sz && s.prv[p] != s.top && s.prv[p] + s.sz[s.prv[p]] == p && s.prv[p] < p
  {
    assert Next(s.sz, s.prv[p]) == p;
    assert Legal(s.prv[p], s.sz[s.prv[p]]);
    hide Apart;
  }

  // ---- taking a named chunk off its list ----

  ghost function Pos(s: Shape, q: int): (j: nat)
    requires Placed(s) && q in s.at
    ensures 1 <= s.at[q] < NAV && j < |s.bins[s.at[q]]| && s.bins[s.at[q]][j] == q
  {
    assert Homed(s, q);
    var j :| 0 <= j < |s.bins[s.at[q]]| && s.bins[s.at[q]][j] == q;
    j
  }

  ghost function Off(s: Shape, q: int): (t: Shape)
    requires Placed(s) && q in s.at
    ensures t.sz == s.sz && t.used == s.used && t.prv == s.prv && t.base == s.base && t.top == s.top
    ensures t.at == s.at - {q}
  {
    UnbinAt(s, s.at[q], Pos(s, q))
  }

  lemma OffCore(m: Mem, s: Shape, blocks: bv32, q: int)
    requires Core(m, s, blocks) && q in s.at
    ensures Core(UnlinkWrites(m, q), Off(s, q), blocks) && SameLive(m, UnlinkWrites(m, q), s)
    ensures IsLoose(Off(s, q), q) && q in s.sz && q !in s.used
    ensures IsFree(s, q)
  {
    hide Tiled, Heads, Feet, Rings, Marks, SameLive, UnlinkWrites;
    assert Homed(s, q);
    hide Placed;
    UnlinkCore(m, s, blocks, s.at[q], Pos(s, q));
  }

  /** What the links of a member of a list, and of its header, say. */
  lemma ListEnds(m: Mem, l: seq<int>, h: int, j: nat)
    requires Ring(m, l, h) && Spaced(l, h) && j < |l|
    ensures m[l[j] + FD] == (if j + 1 < |l| then l[j + 1] else h)
    ensures m[l[j] + BK] == (if j > 0 then l[j - 1] else h)
    ensures m[h + FD] == l[0] && m[h + BK] == l[|l| - 1]
  {
    assert Joined(m, Node(l, h, j), Node(l, h, j + 1)) && Joined(m, Node(l, h, j - 1), Node(l, h, j));
    assert Joined(m, Node(l, h, -1), Node(l, h, 0)) && Joined(m, Node(l, h, |l| - 1), Node(l, h, |l|));
  }

  lemma FacesList(m: Mem, s: Shape, q: int)
    requires Tiled(s) && Placed(s) && Rings(m, s.bins) && q in s.at
    ensures var i, j := s.at[q], Pos(s, q);
            && 1 <= i < NAV && j < |s.bins[i]| && s.bins[i][j] == q && Ring(m, s.bins[i], BinAt(i)) && Spaced(s.bins[i], BinAt(i))
            && |s.bins[LAST_REMAINDER]| <= 1
            && forall k :: 0 <= k < |s.bins[i]| ==> s.bins[i][k] >= BINS_END
  {
    var i, j := s.at[q], Pos(s, q);
    BinIsSpaced(s, i);
    hide Tiled, Ring, Spaced;
  }
  lemma LastRemainderReads(m: Mem, s: Shape, blocks: bv32, q: int)
    requires Core(m, s, blocks) && q in s.at
    ensures m[q + FD] == BinAt(LAST_REMAINDER) <==> s.at[q] == LAST_REMAINDER
    ensures s.at[q] == LAST_REMAINDER ==>
              && s.bins[LAST_REMAINDER] == [q] && Off(s, q).bins[LAST_REMAINDER] == []
              && m[q + BK] == BinAt(LAST_REMAINDER) && m[BinAt(LAST_REMAINDER) + FD] == q && m[BinAt(LAST_REMAINDER) + BK] == q
  {
    hide Core, Tiled, Placed, Ring, Spaced, UnbinAt, Rings;
    CoreParts(m, s, blocks);
    var i, j := s.at[q], Pos(s, q);
    FacesList(m, s, q);
    ListEnds(m, s.bins[i], BinAt(i), j);
    if i == LAST_REMAINDER {
      assert s.bins[i] == [q];
      OffEmpties(s, q);
    }
  }

  lemma OffEmpties(s: Shape, q: int)
    requires Placed(s) && q in s.at && s.at[q] == LAST_REMAINDER && s.bins[LAST_REMAINDER] == [q]
    ensures Off(s, q).bins[LAST_REMAINDER] == []
  {
    hide BinIndex;
  }

  // ---- free chunks stay binned and coalesced, except those an operation holds ----

  ghost predicate SettledBut(s: Shape, x: set<int>)
  {
    forall y {:trigger IsFree(s, y)} :: IsFree(s, y) && y !in x ==> y in s.at && (y + s.sz[y] in s.used || y + s.sz[y] in x)
  }

  ghost predicate Walled(s: Shape, p: int)
  {
    PrevInUse(s, p) == 1 && p in s.sz && p + s.sz[p] in s.used
  }

  lemma FreeIsWalled(s: Shape, q: int)
    requires Tiled(s) && Settled(s) && IsFree(s, q)
    ensures Walled(s, q) && q in s.at
  {
    hide Tiled;
    assert Next(s.sz, q) in s.used;
    if q != s.base {
      PrevChunk(s, q);
      assert !IsFree(s, s.prv[q]);
    }
  }

  lemma OffSettles(s: Shape, x: set<int>, q: int)
    requires Placed(s) && q in s.at && SettledBut(s, x)
    ensures SettledBut(Off(s, q), x + {q})
  {
    hide Placed;
    var t := Off(s, q);
    forall y | IsFree(t, y) && y !in x + {q}
      ensures y in t.at && (y + t.sz[y] in t.used || y + t.sz[y] in x + {q})
    { assert IsFree(s, y); }
  }

  lemma FuseSettles(s: Shape, x: set<int>, a: int)
    requires Tiled(s) && a in s.sz && a != s.top && Next(s.sz, a) != s.top && SettledBut(s, x)
    requires a in x && Next(s.sz, a) in x
    ensures SettledBut(Fuse(s, a, false), x - {Next(s.sz, a)})
  {
    var n, t := Next(s.sz, a), Fuse(s, a, false);
    FuseSizes(s, a, false);
    NextChunk(s, a);
    assert n == a + s.sz[a];
    hide Tiled, Next;
    forall y | IsFree(t, y) && y !in x - {n}
      ensures y in t.at && (y + t.sz[y] in t.used || y + t.sz[y] in x - {n})
    {
      assert IsFree(s, y);
      NextChunk(s, y);
    }
  }

  lemma ReleaseSettles(s: Shape, p: int)
    requires Settled(s) && p in s.used
    ensures SettledBut(WithUse(s, p, false), {p})
  {
    var t := WithUse(s, p, false);
    forall y | IsFree(t, y) && y != p
      ensures y in t.at && (y + t.sz[y] in t.used || y + t.sz[y] == p)
    { assert IsFree(s, y); }
  }

  lemma BinIntoAt(s: Shape, p: int, i: nat, j: nat)
    requires i < |s.bins| && j <= |s.bins[i]|
    ensures BinInto(s, p, i, j).at == s.at[p := i]
  {
  }

  lemma SettledOnce(s: Shape, t: Shape, p: int)
    requires Tiled(s) && SettledBut(s, {p}) && Walled(s, p)
    requires t.sz == s.sz && t.used == s.used && t.top == s.top && p in t.at && s.at.Keys <= t.at.Keys
    ensures Settled(t)
  {
    hide Tiled;
    forall y | IsFree(t, y) ensures y in t.at && y + t.sz[y] in t.used
    {
      assert IsFree(s, y);
      if y != p { NotBeforeUsed(s, p, y); }
    }
  }

  lemma BinSettles(s: Shape, p: int, i: nat, j: nat)
    requires Tiled(s) && SettledBut(s, {p}) && Walled(s, p) && i < |s.bins| && j <= |s.bins[i]|
    ensures Settled(BinInto(s, p, i, j))
  {
    BinIntoAt(s, p, i, j);
    SettledOnce(s, BinInto(s, p, i, j), p);
    hide Tiled, SettledBut, Walled, BinInto;
  }

  // ---- writing a loose chunk's foot; user writes ----

  lemma FootPrivate(s: Shape, p: int, q: int)
    requires Tiled(s) && p in s.sz && p != s.top && p !in s.used && q in s.sz
    ensures var n := p + s.sz[p];
            && n != q + SIZE && n != q + BK && n != q + FD && BINS_END <= n
            && (q != p ==> n != q + s.sz[q])
            && (q in s.used ==> !InPayload(s.sz, q, n))
  {
    NextChunk(s, p);
    if q != s.top { NextChunk(s, q); }
    assert Legal(p, s.sz[p]) && Legal(q, s.sz[q]);
    hide Linked;
  }

  lemma FootMisses(m: Mem, s: Shape, p: int, v: int, q: int)
    requires Tiled(s) && IsLoose(s, p) && q in s.sz
    ensures var m2 := m[p + s.sz[p] := v];
            && m2[q + SIZE] == m[q + SIZE] && m2[q + FD] == m[q + FD] && m2[q + BK] == m[q + BK]
            && (q != p ==> m2[q + s.sz[q]] == m[q + s.sz[q]])
            && (q in s.used ==> forall a :: InPayload(s.sz, q, a) ==> m2[a] == m[a])
  {
    FootPrivate(s, p, q);
    hide Tiled;
  }

  lemma FootQuiet(m: Mem, s: Shape, p: int, v: int)
    requires Tiled(s) && Placed(s) && IsLoose(s, p)
    ensures Quiet(m, m[p + s.sz[p] := v], s)
  {
    hide Tiled, Placed, InPayload, IsFree;
    FootAbove(s, p);
    hide IsLoose;
    var m2 := m[p + s.sz[p] := v];
    forall q | q in s.at ensures q in s.sz && m2[q + s.sz[q]] == m[q + s.sz[q]] && m2[q + FD] == m[q + FD] && m2[q + BK] == m[q + BK]
    {
      BinnedIsChunk(s, q);
      FootMisses(m, s, p, v, q);
    }
  }

  lemma FootAbove(s: Shape, p: int)
    requires Tiled(s) && IsLoose(s, p)
    ensures p in s.sz && p !in s.at && BINS_END <= p + s.sz[p]
  {
    FootPrivate(s, p, p);
    hide Tiled;
  }

  lemma FootLive(m: Mem, s: Shape, p: int, v: int)
    requires Tiled(s) && IsLoose(s, p)
    ensures SameLive(m, m[p + s.sz[p] := v], s)
    ensures Heads(m, s) ==> Heads(m[p + s.sz[p] := v], s)
  {
    assert p in s.sz;
    hide Tiled, InPayload, PrevInUse, IsLoose;
    var m2 := m[p + s.sz[p] := v];
    forall q | q in s.sz ensures m2[q + SIZE] == m[q + SIZE] { FootMisses(m, s, p, v, q); }
    forall q, a | q in s.used && q in s.sz && InPayload(s.sz, q, a) ensures m2[a] == m[a] { FootMisses(m, s, p, v, q); }
  }

  lemma FootCore(m: Mem, s: Shape, blocks: bv32, p: int, v: int)
    requires Core(m, s, blocks) && IsLoose(s, p)
    ensures Core(m[p + s.sz[p] := v], s, blocks) && SameLive(m, m[p + s.sz[p] := v], s)
  {
    var m2 := m[p + s.sz[p] := v];
    hide Tiled, Placed, Heads, Feet, Rings, Marks, Quiet, SameLive;
    FootQuiet(m, s, p, v);
    FootLive(m, s, p, v);
    QuietKeepsLists(m, m2, s);
  }

  // ---- handing a loose chunk out, whole or in part ----

  lemma UseSettles(s: Shape, p: int)
    requires Tiled(s) && p in s.sz && SettledBut(s, {p})
    ensures Settled(WithUse(s, p, true))
  {
    hide Tiled;
    var t := WithUse(s, p, true);
    forall y | IsFree(t, y) ensures y in t.at && Next(t.sz, y) in t.used { assert IsFree(s, y); }
  }

  lemma CarveSettles(s: Shape, p: int, k: nat)
    requires Tiled(s) && IsLoose(s, p) && 0 < k < s.sz[p] && SettledBut(s, {p}) && Walled(s, p)
    ensures SettledBut(Carve(s, p, k), {p + k}) && Walled(Carve(s, p, k), p + k)
    ensures IsLoose(Carve(s, p, k), p + k) <==> p + k !in s.at
  {
    var t := Carve(s, p, k);
    SplitPoint(s, p, k);
    CarveHead(s, p, k, p);
    hide Tiled, PrevInUse;
    assert t.used == s.used + {p} && t.sz == s.sz[p := k][p + k := s.sz[p] - k];
    hide Carve;
    CarvedSettles(s, t, p, k);
    hide SettledBut;
  }

  lemma CarvedSettles(s: Shape, t: Shape, p: int, k: nat)
    requires p in s.sz && t.used == s.used + {p} && t.sz == s.sz[p := k][p + k := s.sz[p] - k] && t.at == s.at
    requires s.top == t.top || (s.top == p && t.top == p + k)
    requires SettledBut(s, {p})
    ensures SettledBut(t, {p + k})
  {
    forall y | IsFree(t, y) && y != p + k
      ensures y in t.at && (y + t.sz[y] in t.used || y + t.sz[y] == p + k)
    { assert IsFree(s, y); }
  }

  lemma CarveTopSettles(s: Shape, k: nat)
    requires Tiled(s) && s.top in s.sz && 0 < k < s.sz[s.top] && Settled(s)
    ensures Settled(Carve(s, s.top, k))
  {
    var p, t := s.top, Carve(s, s.top, k);
    SplitPoint(s, p, k);
    hide Tiled;
    forall y | IsFree(t, y) ensures y in t.at && Next(t.sz, y) in t.used { assert IsFree(s, y); }
  }

  lemma TopIsWalled(s: Shape)
    requires Tiled(s) && Settled(s) && s.top != INITIAL_TOP
    ensures s.top in s.sz && PrevInUse(s, s.top) == 1
  {
    if s.top != s.base {
      PrevChunk(s, s.top);
      assert s.top !in s.used && !IsFree(s, s.prv[s.top]);
    }
    hide Bounded, Linked, Apart;
  }

  lemma LiveTrans(m0: Mem, m1: Mem, m2: Mem, s: Shape, t: Shape)
    requires SameLive(m0, m1, s) && SameLive(m1, m2, t)
    requires forall q :: q in t.used && q in t.sz ==> q in s.used && q in s.sz && s.sz[q] == t.sz[q]
    ensures SameLive(m0, m2, t)
  {
    forall q, a | q in t.used && q in t.sz && InPayload(t.sz, q, a) ensures m2[a] == m0[a]
    {
      assert InPayload(s.sz, q, a) && m1[a] == m0[a];
    }
  }

  /** The live chunks and their sizes: the heap as its clients see it. */
  ghost function Live(s: Shape): map<int, int>
  {
    map p | p in s.used && p in s.sz :: s.sz[p]
  }

  // ---- walking a bin ----

  /** Member j of bin i: a header comes after the last and before the first. */
  ghost function BinNode(s: Shape, i: int, j: int): int
    requires 0 <= i < |s.bins|
  {
    Node(s.bins[i], BinAt(i), j)
  }

  lemma WalkEnds(m: Mem, s: Shape, blocks: bv32, i: int)
    requires Core(m, s, blocks) && 1 <= i < NAV
    ensures |s.bins| == NAV && m[BinAt(i) + FD] == BinNode(s, i, 0) && m[BinAt(i) + BK] == BinNode(s, i, |s.bins[i]| - 1)
    ensures Descending(s.sz, s.bins[i])
    ensures forall j :: 0 <= j < |s.bins[i]| ==> s.bins[i][j] in s.at && s.bins[i][j] != BinAt(i)
  {
    var l, h := s.bins[i], BinAt(i);
    BinIsSpaced(s, i);
    assert Ring(m, l, h) && Descending(s.sz, l);
    hide Core, Placed, Tiled, Descending;
    assert Joined(m, Node(l, h, -1), Node(l, h, 0)) && Joined(m, Node(l, h, |l| - 1), Node(l, h, |l|));
  }

  lemma BinnedAt(m: Mem, s: Shape, blocks: bv32, i: int, j: int)
    requires Core(m, s, blocks) && 1 <= i < NAV && |s.bins| == NAV && 0 <= j < |s.bins[i]|
    ensures var p := s.bins[i][j];
            Ring(m, s.bins[i], BinAt(i)) && p in s.at && s.at[p] == i && IsFree(s, p)
  {
    hide Tiled, Heads, Feet, Marks, Ring, BinIndex, Descending;
    assert Members(s.at, s.bins[i], i);
    assert Homed(s, s.bins[i][j]);
  }

  lemma WalkLinks(m: Mem, s: Shape, blocks: bv32, i: int, j: int)
    requires Core(m, s, blocks) && 1 <= i < NAV && |s.bins| == NAV && 0 <= j < |s.bins[i]|
    ensures var p := s.bins[i][j];
            m[p + FD] == BinNode(s, i, j + 1) && m[p + BK] == BinNode(s, i, j - 1) && p in s.at && s.at[p] == i && IsFree(s, p)
  {
    hide Core, Placed, Tiled, Ring, Spaced, IsFree, Members, Descending, Legal, IsNode;
    var l, h := s.bins[i], BinAt(i);
    CoreParts(m, s, blocks);
    BinnedAt(m, s, blocks, i, j);
    BinIsSpaced(s, i);
    ListEnds(m, l, h, j);
  }

  lemma WalkStep(m: Mem, s: Shape, blocks: bv32, i: int, j: int)
    requires Core(m, s, blocks) && 1 <= i < NAV && |s.bins| == NAV && 0 <= j < |s.bins[i]|
    ensures var p := s.bins[i][j];
            && m[p + FD] == BinNode(s, i, j + 1) && m[p + BK] == BinNode(s, i, j - 1) && p in s.at && s.at[p] == i
            && p in s.sz && p !in s.used && p != s.top && m[p + SIZE] - m[p + SIZE] % 4 == s.sz[p] && BINS_END <= p && p % 8 == 0
            && s.sz[p] % 8 == 0 && MINSIZE <= s.sz[p]
  {
    hide Core, BinNode;
    WalkLinks(m, s, blocks, i, j);
    HeadReads(m, s, blocks, s.bins[i][j]);
  }

  // ---- marking a group of bins ----

  lemma MarkKeepsMarks(m: Mem, s: Shape, blocks: bv32, k: nat)
    requires Core(m, s, blocks) && k < 32
    ensures Core(m, s, MarkMask(blocks, Bit(k))) && Marked(MarkMask(blocks, Bit(k)), k)
  {
    hide Tiled, Placed, Heads, Feet, Rings, Marked, Bit, MarkMask;
    forall i | 2 <= i < NAV && s.bins[i] != [] ensures Marked(MarkMask(blocks, Bit(k)), i / 4) { MarkGroup(blocks, k, i / 4); }
    MarkGroup(blocks, k, k);
  }

  lemma MarkedIfOccupied(m: Mem, s: Shape, blocks: bv32, i: nat)
    requires Core(m, s, blocks) && 2 <= i < NAV && |s.bins| == NAV && s.bins[i] != []
    ensures Marked(blocks, i / 4)
  {
  }

  /** Where frontlink puts a chunk of size k: behind every larger chunk, ahead of equal ones. */
  ghost predicate FrontPosition(sz: Sizes, l: seq<int>, j: int, k: int)
  {
    && 0 <= j <= |l| && (forall a :: 0 <= a < |l| ==> l[a] in sz)
    && (forall a :: 0 <= a < j ==> sz[l[a]] > k)
    && (forall a :: j <= a < |l| ==> sz[l[a]] <= k)
  }

  lemma SmallBinFront(m: Mem, s: Shape, blocks: bv32, size: int)
    requires Core(m, s, blocks) && MINSIZE <= size < 512 && size % 8 == 0
    ensures BinIndex(size) == size / 8 && 2 <= size / 8 < 64 && |s.bins| == NAV
    ensures FrontPosition(s.sz, s.bins[size / 8], 0, size)
  {
    var i, l := size / 8, s.bins[size / 8];
    SmallBinsHoldOneSize(size);
    assert Members(s.at, l, i) && Descending(s.sz, l);
    forall a | 0 <= a < |l| ensures s.sz[l[a]] <= size
    {
      assert Homed(s, l[a]);
      assert Legal(l[a], s.sz[l[a]]);
      SmallBinsHoldOneSize(s.sz[l[a]]);
    }
    hide Core, Placed, Tiled, BinIndex;
  }

  /** The four writes of frontlink, at the place it chooses. */
  lemma FrontlinkCore(m: Mem, s: Shape, blocks: bv32, p: int, size: int, j: nat)
    requires Core(m, s, blocks) && IsLoose(s, p) && s.sz[p] == size && m[p + size] == size
    requires |s.bins| == NAV && 2 <= BinIndex(size) < NAV && Marked(blocks, BinIndex(size) / 4)
    requires FrontPosition(s.sz, s.bins[BinIndex(size)], j, size)
    ensures var i := BinIndex(size);
            var m2 := LinkWrites(m, p, BinNode(s, i, j - 1), BinNode(s, i, j));
            Core(m2, BinInto(s, p, i, j), blocks) && SameLive(m, m2, s)
  {
    WalkEnds(m, s, blocks, BinIndex(size));
    hide Core, BinIndex, IsLoose, Marked;
    LinkCore(m, s, blocks, BinIndex(size), j, p);
  }

  lemma SizeHasBin(size: int)
    requires MINSIZE <= size && size % 8 == 0
    ensures 2 <= BinIndex(size) < NAV && (size < 512 ==> BinIndex(size) == size / 8)
  {
    SmallBinsHoldOneSize(size);
    BinIndexMonotone(size, size);
  }

  lemma EmptyBinFront(m: Mem, s: Shape, blocks: bv32, i: int, size: int)
    requires Core(m, s, blocks) && 2 <= i < NAV && m[BinAt(i) + FD] == BinAt(i)
    ensures |s.bins| == NAV && s.bins[i] == [] && FrontPosition(s.sz, s.bins[i], 0, size)
  {
    WalkEnds(m, s, blocks, i);
    hide Core;
  }

  /** The back link of the node at position j reaches position j - 1; an occupied bin's group is marked. */
  lemma LinkBefore(m: Mem, s: Shape, blocks: bv32, i: int, j: nat)
    requires Core(m, s, blocks) && 2 <= i < NAV && |s.bins| == NAV && j <= |s.bins[i]| && m[BinAt(i) + FD] != BinAt(i)
    ensures m[BinNode(s, i, j) + BK] == BinNode(s, i, j - 1)
    ensures Marked(blocks, i / 4)
  {
    WalkEnds(m, s, blocks, i);
    if j < |s.bins[i]| { WalkLinks(m, s, blocks, i, j); }
    MarkedIfOccupied(m, s, blocks, i);
    hide Core;
  }

  lemma PositionInRange(sz: Sizes, l: seq<int>, j: int, k: int)
    requires FrontPosition(sz, l, j, k)
    ensures 0 <= j <= |l|
  {
  }

  // ---- growing and trimming top ----

  /** Resizing top between operations: its size word carries PREV_INUSE, as no free chunk borders it. */
  lemma ResizeTopValid(m: Mem, s: Shape, blocks: bv32, size: nat)
    requires Core(m, s, blocks) && Settled(s) && s.top != INITIAL_TOP && size % 8 == 0 && MINSIZE <= size
    ensures s.top in s.sz && Core(m[s.top + SIZE := size + 1], ResizeTop(s, size), blocks)
    ensures Settled(ResizeTop(s, size)) && SameLive(m, m[s.top + SIZE := size + 1], ResizeTop(s, size))
    ensures Live(ResizeTop(s, size)) == Live(s)
  {
    hide Core, PrevInUse, SameLive;
    CoreParts(m, s, blocks);
    TopIsWalled(s);
    assert s.top !in s.used;
    hide Tiled, Placed, Rings, Heads, Feet, Marks;
    ResizeTopCore(m, s, blocks, size);
    ResizeTopSettles(s, size);
    ResizeTopLive(s, size);
    hide ResizeTop, Settled, Live;
  }

  lemma ResizeTopSettles(s: Shape, size: nat)
    requires Settled(s) && s.top in s.sz
    ensures Settled(ResizeTop(s, size))
  {
    var t := ResizeTop(s, size);
    forall y {:trigger IsFree(t, y)} | IsFree(t, y) ensures y in t.at && y + t.sz[y] in t.used { assert IsFree(s, y); }
  }

  lemma ResizeTopLive(s: Shape, size: nat)
    requires s.top in s.sz && s.top !in s.used
    ensures Live(ResizeTop(s, size)) == Live(s)
  {
  }

  lemma LiveRefl(m: Mem, s: Shape)
    ensures SameLive(m, m, s)
  {
  }

  lemma TopReads(m: Mem, s: Shape, blocks: bv32)
    requires Core(m, s, blocks) && Settled(s) && s.top != INITIAL_TOP
    ensures s.top in s.sz && m[s.top + SIZE] == s.sz[s.top] + 1 && m[s.top + SIZE] - m[s.top + SIZE] % 4 == s.sz[s.top]
    ensures BINS_END <= s.top && s.top % 8 == 0 && s.sz[s.top] % 8 == 0 && MINSIZE <= s.sz[s.top]
  {
    CoreParts(m, s, blocks);
    hide Core, Placed, Rings, Feet, Marks, PrevInUse;
    TopIsWalled(s);
    hide Tiled;
    HeadReads(m, s, blocks, s.top);
  }

  lemma ResizeFields(s: Shape, size: nat)
    ensures var t := ResizeTop(s, size);
            t.sz == s.sz[s.top := size] && t.at == s.at && t.bins == s.bins && t.top == s.top && t.used == s.used && t.base == s.base && t.prv == s.prv
  {
  }

  // ---- free: joining the run of loose chunks around the freed one ----

  /** k + 1 consecutive loose chunks from p on are all that keeps the heap from being settled. */
  ghost predicate LooseRun(s: Shape, p: int, k: nat)
  {
    && IsLoose(s, p) && PrevInUse(s, p) == 1
    && (k == 0 ==> SettledBut(s, {p}) && Next(s.sz, p) in s.used)
    && (k == 1 ==>
          var n := Next(s.sz, p);
          IsLoose(s, n) && SettledBut(s, {p, n}) && Next(s.sz, n) in s.used)
    && (k == 2 ==>
          var n := Next(s.sz, p);
          IsLoose(s, n) && IsLoose(s, Next(s.sz, n)) && SettledBut(s, {p, n, Next(s.sz, n)})
          && Next(s.sz, Next(s.sz, n)) in s.used)
  }

  ghost function RunSize(s: Shape, p: int, k: nat): int
    requires p in s.sz && LooseRun(s, p, k)
  {
    var n := Next(s.sz, p);
    if k == 0 then s.sz[p]
    else if k == 1 then s.sz[p] + s.sz[n]
    else if k == 2 then s.sz[p] + s.sz[n] + s.sz[Next(s.sz, n)]
    else 0
  }

  lemma NextHeadOfLoose(m: Mem, s: Shape, n: int)
    requires Tiled(s) && Heads(m, s) && IsLoose(s, n)
    ensures Next(s.sz, n) in s.sz && m[Next(s.sz, n) + SIZE] == s.sz[Next(s.sz, n)]
  {
    NextChunk(s, n);
    hide Tiled;
  }

  lemma WriteSame(m: Mem, a: int, v: int)
    requires m[a] == v
    ensures m[a := v] == m
  {
  }

  lemma FuseWritesOneHead(m: Mem, s: Shape, p: int, n: int, nn: int)
    requires p in s.sz && n in s.sz && nn in s.sz && n == Next(s.sz, p) && nn == Next(s.sz, n) && n != s.top && p != nn
    requires m[nn + SIZE] == s.sz[nn] && PrevInUse(s, p) == 1
    ensures FuseWrites(m, s, p, false) == m[p + SIZE := s.sz[p] + s.sz[n] + 1]
  {
    hide PrevInUse, Next;
    WriteSame(m[p + SIZE := s.sz[p] + s.sz[n] + 1], nn + SIZE, s.sz[nn]);
  }

  lemma FuseWritesOnce(m: Mem, s: Shape, p: int)
    requires Tiled(s) && Heads(m, s) && IsLoose(s, p) && Next(s.sz, p) in s.sz && IsLoose(s, Next(s.sz, p)) && PrevInUse(s, p) == 1
    ensures FuseWrites(m, s, p, false) == m[p + SIZE := s.sz[p] + s.sz[Next(s.sz, p)] + 1]
  {
    hide Tiled, Heads, PrevInUse, FuseWrites;
    var n := Next(s.sz, p);
    NextHeadOfLoose(m, s, n);
    assert p != Next(s.sz, n) && n in s.sz && n != s.top by { NextChunk(s, p); NextChunk(s, n); }
    hide Next;
    FuseWritesOneHead(m, s, p, n, Next(s.sz, n));
  }

  /** One join of two loose chunks: only p's size word needs writing. */
  lemma FuseLooseCore(m: Mem, s: Shape, blocks: bv32, p: int)
    requires Core(m, s, blocks) && IsLoose(s, p) && Next(s.sz, p) in s.sz && IsLoose(s, Next(s.sz, p)) && PrevInUse(s, p) == 1
    ensures var t := Fuse(s, p, false);
            var m2 := m[p + SIZE := s.sz[p] + s.sz[Next(s.sz, p)] + 1];
            Core(m2, t, blocks) && SameLive(m, m2, t) && IsLoose(t, p) && PrevInUse(t, p) == 1
  {
    var n, t := Next(s.sz, p), Fuse(s, p, false);
    CoreParts(m, s, blocks);
    assert p != n by { NextChunk(s, p); }
    hide Core, Tiled, Placed, Heads, Feet, Rings, Marks, SameLive, FuseWrites;
    FuseWritesOnce(m, s, p);
    FuseHead(s, p, false, p);
    FuseCore(m, s, blocks, p, false);
    hide PrevInUse;
  }

  /** What a join of the first two chunks of a run leaves around it. */
  lemma JoinShape(s: Shape, x: set<int>, p: int)
    requires Tiled(s) && IsLoose(s, p) && SettledBut(s, x) && p in x
    requires Next(s.sz, p) in s.sz ==> IsLoose(s, Next(s.sz, p)) && Next(s.sz, p) in x
    ensures var n := Next(s.sz, p);
            && n in s.sz && p != n && SettledBut(Fuse(s, p, false), x - {n})
            && (forall q :: q in s.sz && q != n && q != p ==> q in Fuse(s, p, false).sz && Fuse(s, p, false).sz[q] == s.sz[q])
            && p in Fuse(s, p, false).sz && Next(Fuse(s, p, false).sz, p) == Next(s.sz, n)
            && Next(s.sz, n) in s.sz && Next(s.sz, n) != p && Next(s.sz, n) != n
            && Fuse(s, p, false).used == s.used && Fuse(s, p, false).top == s.top && Fuse(s, p, false).at == s.at
  {
    NextChunk(s, p);
    NextChunk(s, Next(s.sz, p));
    FuseSettles(s, x, p);
    FuseSizes(s, p, false);
    hide Tiled, SettledBut;
  }

  lemma JoinOne(m: Mem, s: Shape, blocks: bv32, p: int)
    requires Core(m, s, blocks) && LooseRun(s, p, 1)
    ensures Next(s.sz, p) in s.sz
    ensures var t := Fuse(s, p, false);
            var m2 := m[p + SIZE := s.sz[p] + s.sz[Next(s.sz, p)] + 1];
            Core(m2, t, blocks) && SameLive(m, m2, t) && LooseRun(t, p, 0)
  {
    hide Core, Tiled, Placed, Heads, Feet, Rings, Marks, SameLive, PrevInUse, SettledBut, Fuse;
    var n := Next(s.sz, p);
    CoreParts(m, s, blocks);
    JoinShape(s, {p, n}, p);
    FuseLooseCore(m, s, blocks, p);
    assert {p, n} - {n} == {p};
  }

  lemma JoinTwo(m: Mem, s: Shape, blocks: bv32, p: int)
    requires Core(m, s, blocks) && LooseRun(s, p, 2)
    ensures Next(s.sz, p) in s.sz
    ensures var t := Fuse(s, p, false);
            var m2 := m[p + SIZE := s.sz[p] + s.sz[Next(s.sz, p)] + 1];
            Core(m2, t, blocks) && SameLive(m, m2, t) && LooseRun(t, p, 1)
  {
    hide Core, Tiled, Placed, Heads, Feet, Rings, Marks, SameLive, PrevInUse, SettledBut, Fuse;
    var n := Next(s.sz, p);
    CoreParts(m, s, blocks);
    JoinShape(s, {p, n, Next(s.sz, n)}, p);
    FuseLooseCore(m, s, blocks, p);
    assert {p, n, Next(s.sz, n)} - {n} == {p, Next(s.sz, n)};
  }

  /** What clients and lists see is the same in both shapes. */
  ghost predicate SameUses(s: Shape, t: Shape)
  {
    && t.used == s.used && t.at == s.at && t.bins == s.bins && t.top == s.top
    && (s.top in s.sz ==> s.top in t.sz && t.sz[s.top] == s.sz[s.top])
    && (forall q :: q in s.used && q in s.sz ==> q in t.sz && t.sz[q] == s.sz[q])
    && (forall q :: q in t.used && q in t.sz ==> q in s.sz)
  }

  lemma FuseLooseUses(s: Shape, p: int)
    requires Tiled(s) && IsLoose(s, p) && Next(s.sz, p) in s.sz && IsLoose(s, Next(s.sz, p))
    ensures SameUses(s, Fuse(s, p, false))
  {
    FuseSizes(s, p, false);
    hide Tiled;
  }

  /** Joining a whole run is one write to its first size word. */
  lemma JoinRun(m: Mem, s: Shape, blocks: bv32, p: int, k: nat) returns (t: Shape)
    requires Core(m, s, blocks) && k <= 2 && LooseRun(s, p, k)
    ensures p in t.sz && t.sz[p] == RunSize(s, p, k) && LooseRun(t, p, 0)
    ensures Core(m[p + SIZE := t.sz[p] + 1], t, blocks) && SameLive(m, m[p + SIZE := t.sz[p] + 1], t)
    ensures SameUses(s, t)
    decreases k, 1
  {
    hide Core, Tiled, Placed, Heads, Feet, Rings, Marks, SameLive, PrevInUse, SettledBut, Fuse;
    CoreParts(m, s, blocks);
    if k == 0 {
      t := s;
      HeadOf(m, s, blocks, p);
      WriteSame(m, p + SIZE, s.sz[p] + 1);
      LiveRefl(m, s);
    } else if k == 1 {
      t := Fuse(s, p, false);
      JoinShape(s, {p, Next(s.sz, p)}, p);
      FuseLooseUses(s, p);
      JoinOne(m, s, blocks, p);
      FusedSize(s, p);
    } else {
      t := JoinRunTwo(m, s, blocks, p);
    }
  }

  lemma FusedSize(s: Shape, p: int)
    requires Tiled(s) && p in s.sz && p != s.top && Next(s.sz, p) in s.sz
    ensures p in Fuse(s, p, false).sz && Fuse(s, p, false).sz[p] == s.sz[p] + s.sz[Next(s.sz, p)]
  {
    FuseSizes(s, p, false);
    hide Tiled;
  }

  lemma HeadOf(m: Mem, s: Shape, blocks: bv32, p: int)
    requires Core(m, s, blocks) && p in s.sz
    ensures m[p + SIZE] == s.sz[p] + PrevInUse(s, p)
  {
  }

  lemma JoinRunTwo(m: Mem, s: Shape, blocks: bv32, p: int) returns (t: Shape)
    requires Core(m, s, blocks) && LooseRun(s, p, 2)
    ensures p in t.sz && t.sz[p] == RunSize(s, p, 2) && LooseRun(t, p, 0)
    ensures Core(m[p + SIZE := t.sz[p] + 1], t, blocks) && SameLive(m, m[p + SIZE := t.sz[p] + 1], t)
    ensures SameUses(s, t)
    decreases 2, 0
  {
    hide Core, Tiled, Placed, Heads, Feet, Rings, Marks, SameLive, PrevInUse, SettledBut, Fuse;
    CoreParts(m, s, blocks);
    var n := Next(s.sz, p);
    JoinShape(s, {p, n, Next(s.sz, n)}, p);
    JoinTwo(m, s, blocks, p);
    FuseLooseUses(s, p);
    FusedSize(s, p);
    var s1 := Fuse(s, p, false);
    var m1 := m[p + SIZE := s1.sz[p] + 1];
    t := JoinRun(m1, s1, blocks, p, 1);
    var m2 := m1[p + SIZE := t.sz[p] + 1];
    assert m2 == m[p + SIZE := t.sz[p] + 1];
    LiveTrans(m, m1, m2, s1, t);
  }

  // ---- free: which chunks the run consists of ----

  lemma OffKeepsPrevInUse(s: Shape, q: int, p: int)
    requires Placed(s) && q in s.at
    ensures PrevInUse(Off(s, q), p) == PrevInUse(s, p)
    ensures IsFree(Off(s, q), p) == IsFree(s, p)
  {
    hide Placed, Off;
  }

  lemma ReleasedFacts(s: Shape, p: int)
    requires Tiled(s) && Placed(s) && Settled(s) && p in s.used && p in s.sz
    ensures var t := WithUse(s, p, false);
            && Tiled(t) && Placed(t) && IsLoose(t, p) && SettledBut(t, {p}) && PrevInUse(t, p) == PrevInUse(s, p)
            && Next(s.sz, p) in s.sz && t.sz == s.sz && t.used == s.used - {p} && t.at == s.at && t.top == s.top && t.prv == s.prv && t.base == s.base
            && p != s.top && p < Next(s.sz, p)
            && (forall y {:trigger IsFree(s, y)} :: IsFree(s, y) ==> IsFree(t, y) && y != p && y in t.at && Next(s.sz, y) in s.used && PrevInUse(s, y) == 1)
  {
    assert p != s.top && p !in s.at by { if p in s.at { BinnedIsChunk(s, p); } }
    UseKeepsTiling(s, p, false);
    UseKeepsPlacing(s, p, false);
    ReleaseSettles(s, p);
    UseHead(s, p, false, p);
    NextChunk(s, p);
    hide Tiled, Placed, PrevInUse, SettledBut;
    forall y | IsFree(s, y) ensures Walled(s, y) { FreeIsWalled(s, y); }
  }

  lemma RunAlone(s: Shape, p: int)
    requires Tiled(s) && Placed(s) && Settled(s) && p in s.used && p in s.sz && PrevInUse(s, p) == 1
    requires Next(s.sz, p) in s.used
    ensures LooseRun(WithUse(s, p, false), p, 0)
  {
    hide Tiled, Placed, PrevInUse, SettledBut, Settled;
    ReleasedFacts(s, p);
  }

  lemma RunNext(s: Shape, p: int)
    requires Tiled(s) && Placed(s) && Settled(s) && p in s.used && p in s.sz && PrevInUse(s, p) == 1
    requires Next(s.sz, p) != s.top && Next(s.sz, p) !in s.used
    ensures Next(s.sz, p) in s.sz && Next(s.sz, p) in s.at && Placed(WithUse(s, p, false))
    ensures LooseRun(Off(WithUse(s, p, false), Next(s.sz, p)), p, 1)
  {
    hide Tiled, Placed, PrevInUse, SettledBut, Settled, Off;
    var n, t := Next(s.sz, p), WithUse(s, p, false);
    ReleasedFacts(s, p);
    assert IsFree(s, n);
    assert n != p && Next(s.sz, n) != p by { NextChunk(s, n); }
    OffSettles(t, {p}, n);
    OffKeepsPrevInUse(t, n, p);
    assert {p} + {n} == {p, n};
  }

  lemma RunPrev(s: Shape, p: int)
    requires Tiled(s) && Placed(s) && Settled(s) && p in s.used && p in s.sz && PrevInUse(s, p) == 0
    requires Next(s.sz, p) in s.used
    ensures p in s.prv && s.prv[p] in s.sz && s.prv[p] in s.at && Next(s.sz, s.prv[p]) == p && Placed(WithUse(s, p, false))
    ensures LooseRun(Off(WithUse(s, p, false), s.prv[p]), s.prv[p], 1)
  {
    PrevIsFree(s, p);
    hide Tiled, Placed, PrevInUse, SettledBut, Settled, Off;
    var q, t := s.prv[p], WithUse(s, p, false);
    ReleasedFacts(s, p);
    assert q != p;
    OffSettles(t, {p}, q);
    OffKeepsPrevInUse(t, q, q);
    OffKeepsPrevInUse(t, q, p);
    ReleaseKeepsPrevInUse(s, p, q);
    assert {p} + {q} == {q, p};
  }

  lemma PrevIsFree(s: Shape, p: int)
    requires Tiled(s) && p in s.sz && PrevInUse(s, p) == 0
    ensures p in s.prv && IsFree(s, s.prv[p]) && Next(s.sz, s.prv[p]) == p && s.prv[p] < p
  {
    PrevChunk(s, p);
    hide Tiled;
  }

  lemma ReleaseKeepsPrevInUse(s: Shape, p: int, q: int)
    requires Tiled(s) && p in s.sz && p != s.top && q in s.sz && q <= p
    ensures PrevInUse(WithUse(s, p, false), q) == PrevInUse(s, q)
  {
    UseHead(s, p, false, q);
    NextChunk(s, p);
    hide Tiled, PrevInUse;
  }

  lemma RunBoth(s: Shape, p: int)
    requires Tiled(s) && Placed(s) && Settled(s) && p in s.used && p in s.sz && PrevInUse(s, p) == 0
    requires Next(s.sz, p) != s.top && Next(s.sz, p) !in s.used
    ensures p in s.prv && s.prv[p] in s.sz && s.prv[p] in s.at && Next(s.sz, s.prv[p]) == p && Placed(WithUse(s, p, false))
    ensures Next(s.sz, p) in s.sz && Next(s.sz, p) in s.at && Next(s.sz, p) != s.prv[p] && Placed(Off(WithUse(s, p, false), s.prv[p]))
    ensures LooseRun(Off(Off(WithUse(s, p, false), s.prv[p]), Next(s.sz, p)), s.prv[p], 2)
  {
    hide Tiled, Placed, PrevInUse, SettledBut, Settled, Off;
    PrevIsFree(s, p);
    var q, n, t := s.prv[p], Next(s.sz, p), WithUse(s, p, false);
    ReleasedFacts(s, p);
    assert q != p && IsFree(s, n) && IsFree(s, q);
    NextApart(s, p, n);
    assert Next(s.sz, n) in t.used;
    hide IsFree, WithUse;
    OffPlaced(t, q);
    var t1 := Off(t, q);
    OffSettles(t, {p}, q);
    OffSettles(t1, {p} + {q}, n);
    OffKeepsPrevInUse(t, q, q);
    OffKeepsPrevInUse(t1, n, q);
    ReleaseKeepsPrevInUse(s, p, q);
    assert {p} + {q} + {n} == {q, p, n};
  }

  lemma NextApart(s: Shape, p: int, n: int)
    requires Tiled(s) && p in s.sz && n in s.sz && n == Next(s.sz, p) && n != s.top && p != s.top
    ensures p < n && p < Next(s.sz, n)
  {
    NextChunk(s, p);
    NextChunk(s, n);
    hide Tiled;
  }

  lemma OffPlaced(s: Shape, q: int)
    requires Placed(s) && q in s.at
    ensures Placed(Off(s, q)) && IsLoose(Off(s, q), q)
  {
    UnbinKeepsPlacing(s, s.at[q], Pos(s, q));
  }

  // ---- last_remainder: a one-entry list that is overwritten rather than unlinked ----

  const LAST := BinAt(LAST_REMAINDER)

  /** link_last_remainder(P) */
  function LastWrites(m: Mem, p: int): Mem
  {
    LinkWrites(m, p, LAST, LAST)
  }

  // ---- memories compared word by word ----

  lemma SameMem(m1: Mem, m2: Mem)
    requires forall a :: m2[a] == m1[a]
    ensures m1 == m2
  {
    forall a ensures a in m1 && a in m2 && m1[a] == m2[a] {}
  }

  lemma LinkAt(m: Mem, p: int, bk: int, fd: int, a: int)
    ensures LinkWrites(m, p, bk, fd)[a] ==
      if a == bk + FD then p else if a == fd + BK then p else if a == p + FD then fd else if a == p + BK then bk else m[a]
  {
  }
  lemma UnlinkAt(m: Mem, p: int, a: int)
    ensures UnlinkWrites(m, p)[a] == if a == m[p + BK] + FD then m[p + FD] else if a == m[p + FD] + BK then m[p + BK] else m[a]
  {
  }
  lemma RelinkWrites(m: Mem, q: int, h: int)
    requires m[q + FD] == h && m[q + BK] == h && m[h + FD] == q && m[h + BK] == q && q % 8 == 0 && h % 8 == 0
    ensures LinkWrites(UnlinkWrites(m, q), q, h, h) == m
  {
    hide LinkWrites, UnlinkWrites;
    var m1 := UnlinkWrites(m, q);
    var m2 := LinkWrites(m1, q, h, h);
    forall a ensures m2[a] == m[a] { LinkAt(m1, q, h, h, a); UnlinkAt(m, q, a); }
    SameMem(m, m2);
  }
  lemma ReplaceWrites(m: Mem, n: int, q: int, h: int)
    requires m[n + FD] == h && m[n + BK] == h
    ensures LinkWrites(UnlinkWrites(m, n), q, h, h) == LinkWrites(m, q, h, h)
  {
    hide LinkWrites, UnlinkWrites;
    var m0 := UnlinkWrites(m, n);
    var m1, m2 := LinkWrites(m0, q, h, h), LinkWrites(m, q, h, h);
    forall a ensures m2[a] == m1[a] { LinkAt(m0, q, h, h, a); LinkAt(m, q, h, h, a); UnlinkAt(m, n, a); }
    SameMem(m1, m2);
  }
  lemma PastWrites(m: Mem, n: int, q: int, h: int)
    requires var b, f := m[n + BK], m[n + FD];
             b != q && f != q && b != h && f != h && n != q && n != h && b % 8 == 0 && f % 8 == 0 && n % 8 == 0 && q % 8 == 0 && h % 8 == 0
    ensures UnlinkWrites(LinkWrites(m, q, h, h), n) == LinkWrites(UnlinkWrites(m, n), q, h, h)
  {
    hide LinkWrites, UnlinkWrites;
    var b, f := m[n + BK], m[n + FD];
    var m0, m1 := LinkWrites(m, q, h, h), UnlinkWrites(m, n);
    LinkAt(m, q, h, h, n + BK);
    LinkAt(m, q, h, h, n + FD);
    var m2, m3 := UnlinkWrites(m0, n), LinkWrites(m1, q, h, h);
    forall a ensures m2[a] == m3[a]
    {
      UnlinkAt(m0, n, a);
      LinkAt(m, q, h, h, a);
      LinkAt(m1, q, h, h, a);
      UnlinkAt(m, n, a);
    }
    SameMem(m3, m2);
  }

  /** Leaving the last remainder where it is amounts to unlinking and relinking it. */
  lemma RelinkLast(m: Mem, s: Shape, blocks: bv32, q: int)
    requires Core(m, s, blocks) && q in s.at && s.at[q] == LAST_REMAINDER
    ensures LastWrites(UnlinkWrites(m, q), q) == m
    ensures |Off(s, q).bins| == NAV && Off(s, q).bins[LAST_REMAINDER] == []
  {
    hide Core, PrevInUse, UnlinkWrites, LinkWrites;
    CoreParts(m, s, blocks);
    LastRemainderReads(m, s, blocks, q);
    OffCore(m, s, blocks, q);
    HeadReads(m, s, blocks, q);
    WalkEnds(UnlinkWrites(m, q), Off(s, q), blocks, LAST_REMAINDER);
    RelinkWrites(m, q, LAST);
  }

  /** Overwriting the last remainder's slot needs no unlink first. */
  lemma ReplaceLast(m: Mem, s: Shape, blocks: bv32, n: int, q: int)
    requires Core(m, s, blocks) && n in s.at && s.at[n] == LAST_REMAINDER
    ensures LastWrites(UnlinkWrites(m, n), q) == LastWrites(m, q)
    ensures |Off(s, n).bins| == NAV && Off(s, n).bins[LAST_REMAINDER] == []
  {
    hide Core, UnlinkWrites, LinkWrites;
    CoreParts(m, s, blocks);
    LastRemainderReads(m, s, blocks, n);
    OffCore(m, s, blocks, n);
    WalkEnds(UnlinkWrites(m, n), Off(s, n), blocks, LAST_REMAINDER);
    ReplaceWrites(m, n, q, LAST);
  }

  lemma NodeOfBin(s: Shape, i: int, j: int)
    requires Tiled(s) && Placed(s) && 1 <= i < NAV && i != LAST_REMAINDER
    ensures BinNode(s, i, j) % 8 == 0 && BinNode(s, i, j) != LAST
    ensures forall q :: IsLoose(s, q) ==> BinNode(s, i, j) != q
  {
    BinIsSpaced(s, i);
    forall q | IsLoose(s, q) ensures Legal(q, s.sz[q]) { assert q in s.sz; }
    hide Tiled, Placed;
  }

  /** Unlinking another chunk commutes with filling the last remainder's slot. */
  lemma UnlinkPastLast(m: Mem, s: Shape, blocks: bv32, n: int, q: int)
    requires Core(m, s, blocks) && n in s.at && s.at[n] != LAST_REMAINDER && IsLoose(s, q)
    ensures UnlinkWrites(LastWrites(m, q), n) == LastWrites(UnlinkWrites(m, n), q)
  {
    hide Core, Tiled, Placed, UnlinkWrites, LinkWrites, BinNode;
    CoreParts(m, s, blocks);
    var i: int, j: int := s.at[n], Pos(s, n);
    WalkEnds(m, s, blocks, i);
    WalkStep(m, s, blocks, i, j);
    NodeOfBin(s, i, j - 1);
    NodeOfBin(s, i, j + 1);
    assert BINS_END <= q && q % 8 == 0 by { HeadReads(m, s, blocks, q); }
    PastWrites(m, n, q, LAST);
  }

  lemma LastKeepsHeads(m: Mem, s: Shape, q: int, x: int)
    requires Tiled(s) && IsLoose(s, q) && x in s.sz
    ensures LastWrites(m, q)[x + SIZE] == m[x + SIZE]
  {
    NodeWordsPrivate(s, q, x);
    NodeWordsPrivate(s, LAST, x);
    hide Tiled;
  }

  // ---- free: gathering the run ----

  /** While a run is gathered, m is the real memory and g the one in which the last remainder's
      slot is empty; they differ only when the run's first chunk is filling that slot. */
  ghost predicate Holding(m: Mem, g: Mem, s: Shape, blocks: bv32, p: int, islr: bool)
  {
    && Core(g, s, blocks) && IsLoose(s, p)
    && (if islr then m == LastWrites(g, p) && |s.bins| == NAV && s.bins[LAST_REMAINDER] == [] else m == g)
  }

  lemma HoldNothing(m: Mem, s: Shape, blocks: bv32, p: int)
    requires Core(m, s, blocks) && IsLoose(s, p)
    ensures Holding(m, m, s, blocks, p, false)
  {
  }

  lemma LiveSameShape(m: Mem, m2: Mem, s: Shape, t: Shape)
    requires SameLive(m, m2, s) && t.used == s.used && t.sz == s.sz
    ensures SameLive(m, m2, t)
  {
  }

  /** Taking the chunk before: a last remainder stays linked, any other is unlinked. */
  lemma HoldPrev(m: Mem, s: Shape, blocks: bv32, q: int)
    requires Core(m, s, blocks) && q in s.at && Placed(s)
    ensures var lr := m[q + FD] == LAST;
            Holding(if lr then m else UnlinkWrites(m, q), UnlinkWrites(m, q), Off(s, q), blocks, q, lr)
    ensures SameLive(m, UnlinkWrites(m, q), Off(s, q))
    ensures m[q + FD] == LAST <==> s.at[q] == LAST_REMAINDER
  {
    hide Core, UnlinkWrites, LinkWrites, IsLoose, SameLive;
    LastRemainderReads(m, s, blocks, q);
    OffCore(m, s, blocks, q);
    LiveSameShape(m, UnlinkWrites(m, q), s, Off(s, q));
    if s.at[q] == LAST_REMAINDER { RelinkLast(m, s, blocks, q); }
  }

  /** Taking the chunk after, with the run's first chunk p already loose. */
  lemma HoldNext(m: Mem, g: Mem, s: Shape, blocks: bv32, p: int, islr: bool, n: int)
    requires Holding(m, g, s, blocks, p, islr) && n in s.at && Placed(s) && n != p
    ensures m[n + FD] == g[n + FD] && (islr ==> m[n + FD] != LAST)
    ensures var lr := !islr && m[n + FD] == LAST;
            Holding(if lr then LastWrites(m, p) else UnlinkWrites(m, n), UnlinkWrites(g, n), Off(s, n), blocks, p, islr || lr)
    ensures SameLive(g, UnlinkWrites(g, n), Off(s, n))
    ensures g[n + FD] == LAST <==> s.at[n] == LAST_REMAINDER
  {
    hide Core, Placed, Tiled, UnlinkWrites, LinkWrites, SameLive, IsFree;
    CoreParts(g, s, blocks);
    LastRemainderReads(g, s, blocks, n);
    OffCore(g, s, blocks, n);
    LiveSameShape(g, UnlinkWrites(g, n), s, Off(s, n));
    OffKeepsPrevInUse(s, n, p);
    if islr {
      EmptySlot(s, n);
      UnlinkPastLast(g, s, blocks, n, p);
      LinkMissesNode(g, s, blocks, n, p);
    } else if s.at[n] == LAST_REMAINDER {
      ReplaceLast(g, s, blocks, n, p);
    }
  }

  lemma EmptySlot(s: Shape, n: int)
    requires Placed(s) && n in s.at && s.bins[LAST_REMAINDER] == []
    ensures s.at[n] != LAST_REMAINDER
    ensures |Off(s, n).bins| == NAV && Off(s, n).bins[LAST_REMAINDER] == []
  {
    assert Homed(s, n);
  }

  lemma LinkMissesNode(g: Mem, s: Shape, blocks: bv32, n: int, p: int)
    requires Core(g, s, blocks) && n in s.at && IsLoose(s, p)
    ensures LastWrites(g, p)[n + FD] == g[n + FD]
  {
    hide Core, Tiled, Placed, LinkWrites;
    CoreParts(g, s, blocks);
    BinnedIsChunk(s, n);
    HeadReads(g, s, blocks, n);
    NodesApart(s, n, p);
    NodesApart(s, n, LAST);
    NodesApart(s, p, n);
    LinkAt(g, p, LAST, LAST, n + FD);
  }

  lemma LastCommutes(m: Mem, p: int, a: int, v: int)
    requires a != p + FD && a != p + BK && a != LAST + FD && a != LAST + BK
    ensures LastWrites(m, p)[a := v] == LastWrites(m[a := v], p)
  {
    var m1, m2 := LastWrites(m, p)[a := v], LastWrites(m[a := v], p);
    hide LastWrites;
    forall x {:trigger m2[x]} ensures m2[x] == m1[x] { LastCommutesAt(m, p, a, v, x, m1, m2); }
    SameMem(m1, m2);
  }

  lemma LastCommutesAt(m: Mem, p: int, a: int, v: int, x: int, m1: Mem, m2: Mem)
    requires a != p + FD && a != p + BK && a != LAST + FD && a != LAST + BK
    requires m1 == LastWrites(m, p)[a := v] && m2 == LastWrites(m[a := v], p)
    ensures m2[x] == m1[x]
  {
    hide LinkWrites;
    LinkAt(m, p, LAST, LAST, x);
    LinkAt(m[a := v], p, LAST, LAST, x);
  }

  lemma LastCommutesTwice(m: Mem, p: int, size: int)
    requires BINS_END <= p && MINSIZE <= size
    ensures LastWrites(m, p)[p + SIZE := size + 1][p + size := size] == LastWrites(m[p + SIZE := size + 1][p + size := size], p)
  {
    hide LinkWrites;
    LastCommutes(m, p, p + SIZE, size + 1);
    LastCommutes(m[p + SIZE := size + 1], p, p + size, size);
  }

  /** The run joined, its size word and foot written, still on no list. */
  lemma FinishRun(m: Mem, g: Mem, s: Shape, blocks: bv32, p: int, islr: bool, k: nat) returns (t: Shape)
    requires Holding(m, g, s, blocks, p, islr) && k <= 2 && LooseRun(s, p, k)
    ensures p in t.sz && t.sz[p] == RunSize(s, p, k) && SameUses(s, t)
    ensures var size := t.sz[p];
            var g2, m2 := g[p + SIZE := size + 1][p + size := size], m[p + SIZE := size + 1][p + size := size];
            && Holding(m2, g2, t, blocks, p, islr) && SameLive(g, g2, t) && g2[p + size] == size
    ensures SettledBut(t, {p}) && Walled(t, p)
  {
    hide Core, LinkWrites, SameLive, SettledBut, PrevInUse;
    SizeAtLeast(g, s, blocks, p);
    t := JoinRun(g, s, blocks, p, k);
    var size := t.sz[p];
    var g1 := g[p + SIZE := size + 1];
    SizeAtLeast(g1, t, blocks, p);
    FootCore(g1, t, blocks, p, size);
    LiveTrans(g, g1, g1[p + size := size], t, t);
    if islr { LastCommutesTwice(g, p, size); }
  }

  /** A finished run whose links already fill the last remainder's slot is back on a list. */
  lemma FinishLast(m: Mem, g: Mem, s: Shape, blocks: bv32, p: int)
    requires Holding(m, g, s, blocks, p, true) && g[p + s.sz[p]] == s.sz[p] && SettledBut(s, {p}) && Walled(s, p)
    ensures var t := BinInto(s, p, LAST_REMAINDER, 0); Core(m, t, blocks) && Settled(t) && SameLive(g, m, s)
  {
    hide Core, LinkWrites, SameLive, SettledBut, Walled, Tiled, Placed, BinInto;
    CoreParts(g, s, blocks);
    LinkCore(g, s, blocks, LAST_REMAINDER, 0, p);
    BinSettles(s, p, LAST_REMAINDER, 0);
  }

  /** t's live chunks are s's without p; the bins may differ. */
  ghost predicate WithoutLive(s: Shape, t: Shape, p: int)
  {
    && t.used == s.used - {p} && t.used <= t.sz.Keys && t.top == s.top
    && (s.top in s.sz ==> s.top in t.sz && t.sz[s.top] == s.sz[s.top])
    && (forall q :: q in t.used && q in t.sz ==> q in s.sz && t.sz[q] == s.sz[q])
  }

  lemma WithoutLiveIs(s: Shape, t: Shape, p: int)
    requires WithoutLive(s, t, p)
    ensures Live(t) == Live(s) - {p}
  {
    forall q | q in Live(s) - {p} ensures q in Live(t) { assert q in t.used && q in t.sz; }
    assert forall q :: q in Live(t) ==> q in Live(s) - {p} && Live(t)[q] == (Live(s) - {p})[q];
  }

  /** The in-use bit of the chunk after n, read through the possibly filled last remainder's slot. */
  lemma NextBitReads(m: Mem, g: Mem, s: Shape, blocks: bv32, p: int, islr: bool, n: int)
    requires Holding(m, g, s, blocks, p, islr) && n in s.sz && n != s.top
    ensures n + s.sz[n] in s.sz && (m[n + s.sz[n] + SIZE] % 2 == 0 <==> n !in s.used)
  {
    hide Core, LinkWrites, PrevInUse, IsLoose;
    CoreParts(g, s, blocks);
    NextChunk(s, n);
    var x := n + s.sz[n];
    HeadReads(g, s, blocks, x);
    NextUses(s, n);
    if islr { LastKeepsHeads(g, s, p, x); }
  }

  lemma NextUses(s: Shape, n: int)
    requires Tiled(s) && n in s.sz && n != s.top
    ensures PrevInUse(s, n + s.sz[n]) == if n in s.used then 1 else 0
  {
    NextChunk(s, n);
    hide Tiled;
  }

  lemma ReleaseUses(s: Shape, p: int)
    requires Tiled(s)
    ensures WithoutLive(s, WithUse(s, p, false), p)
  {
    hide Bounded, Linked, Apart;
  }

  lemma OffUses(s: Shape, t: Shape, p: int, q: int)
    requires WithoutLive(s, t, p) && Placed(t) && q in t.at
    ensures WithoutLive(s, Off(t, q), p)
  {
    hide Placed, Off;
  }

  lemma LiveSub(m: Mem, m2: Mem, s: Shape, t: Shape, p: int)
    requires SameLive(m, m2, s) && WithoutLive(s, t, p)
    ensures SameLive(m, m2, t)
  {
    forall q, a | q in t.used && q in t.sz && InPayload(t.sz, q, a) ensures m2[a] == m[a]
    {
      assert InPayload(s.sz, q, a);
    }
  }

  /** What free can rely on when it starts on a chunk below top. */
  lemma GatherFacts(m: Mem, s: Shape, blocks: bv32, p: int)
    requires Core(m, s, blocks) && Settled(s) && p in s.used && p in s.sz && Next(s.sz, p) != s.top
    ensures m[p + SIZE] % 2 == PrevInUse(s, p) && m[p + SIZE] - m[p + SIZE] % 2 == s.sz[p]
    ensures var n := Next(s.sz, p);
            n in s.sz && n != INITIAL_TOP && n != p && m[n + SIZE] - m[n + SIZE] % 4 == s.sz[n]
  {
    hide Core, PrevInUse;
    CoreParts(m, s, blocks);
    ReleasedFacts(s, p);
    HeadReads(m, s, blocks, p);
    HeadReads(m, s, blocks, Next(s.sz, p));
    hide Tiled, Placed, Settled;
  }

  /** After the release the foot before the chunk still gives the free predecessor's size. */
  lemma PrevFoot(m: Mem, s0: Shape, s: Shape, blocks: bv32, p: int)
    requires Tiled(s0) && Settled(s0) && p in s0.sz && PrevInUse(s0, p) == 0
    requires Core(m, s, blocks) && s == WithUse(s0, p, false)
    ensures p in s0.prv && s0.prv[p] in s0.sz && s0.prv[p] in s.at && s0.prv[p] != p && Placed(s)
    ensures p - m[p] == s0.prv[p] && m[p] == s0.sz[s0.prv[p]]
  {
    hide Core, Tiled, Placed, Settled, PrevInUse, IsFree, Walled;
    CoreParts(m, s, blocks);
    PrevIsFree(s0, p);
    FreeIsWalled(s0, s0.prv[p]);
    FootReads(m, s, blocks, s0.prv[p]);
  }

  lemma FootReads(m: Mem, s: Shape, blocks: bv32, q: int)
    requires Core(m, s, blocks) && q in s.at
    ensures q in s.sz && m[Next(s.sz, q)] == s.sz[q]
  {
    hide Tiled, Placed, Heads, Rings, Marks;
  }

  /** One of the free neighbours of c is the last remainder. */
  ghost predicate TouchesLast(s: Shape, c: int)
    requires c in s.sz
  {
    || (PrevInUse(s, c) == 0 && c in s.prv && s.prv[c] in s.at && s.at[s.prv[c]] == LAST_REMAINDER)
    || (Next(s.sz, c) in s.at && s.at[Next(s.sz, c)] == LAST_REMAINDER)
  }

  /** The size of c and its free neighbours together. */
  ghost function MergedSize(s: Shape, c: int): int
    requires c in s.sz
  {
    var n := Next(s.sz, c);
    s.sz[c] + (if PrevInUse(s, c) == 0 && c in s.prv && s.prv[c] in s.sz then s.sz[s.prv[c]] else 0) + (if n in s.sz && n !in s.used then s.sz[n] else 0)
  }

  lemma UsedIsUnbinned(s: Shape, q: int)
    requires Tiled(s) && Placed(s) && q in s.used
    ensures q !in s.at
  {
    UsedFacts(s, q);
  }

  /** The shape free has reached once it has looked at both neighbours of chunk c. */
  ghost predicate Gathering(s0: Shape, s: Shape, c: int, p: int, back: bool, forth: bool)
    requires c in s0.sz
  {
    && Placed(WithUse(s0, c, false))
    && var t := WithUse(s0, c, false);
    && (back ==> c in s0.prv && s0.prv[c] in t.at && Placed(Off(t, s0.prv[c])))
    && var t1 := if back then Off(t, s0.prv[c]) else t;
    && Placed(t1) && p == (if back then s0.prv[c] else c)
    && (forth ==> Next(s0.sz, c) in t1.at)
    && s == if forth then Off(t1, Next(s0.sz, c)) else t1
  }

  lemma RunGathered(s0: Shape, s: Shape, c: int, p: int, back: bool, forth: bool)
    requires Tiled(s0) && Placed(s0) && Settled(s0) && c in s0.used && c in s0.sz && Next(s0.sz, c) != s0.top
    requires Gathering(s0, s, c, p, back, forth) && back == (PrevInUse(s0, c) == 0) && forth == (Next(s0.sz, c) !in s0.used)
    ensures var k := (if back then 1 else 0) + (if forth then 1 else 0);
            && LooseRun(s, p, k)
            && RunSize(s, p, k) == s0.sz[c] + (if back && p in s0.sz then s0.sz[p] else 0) + (if forth && Next(s0.sz, c) in s0.sz then s0.sz[Next(s0.sz, c)] else 0)
  {
    hide Tiled, Placed, Settled, PrevInUse, SettledBut, Off, IsFree;
    if back && forth {
      RunBoth(s0, c);
    } else if back {
      RunPrev(s0, c);
    } else if forth {
      assert PrevInUse(s0, c) == 1 by { PrevInUseIsBit(s0, c); }
      RunNext(s0, c);
    } else {
      assert PrevInUse(s0, c) == 1 by { PrevInUseIsBit(s0, c); }
      RunAlone(s0, c);
    }
  }

  lemma Gathered(s0: Shape, s: Shape, c: int, p: int, back: bool, forth: bool)
    requires Tiled(s0) && Placed(s0) && Settled(s0) && c in s0.used && c in s0.sz && Next(s0.sz, c) != s0.top
    requires Gathering(s0, s, c, p, back, forth) && back == (PrevInUse(s0, c) == 0) && forth == (Next(s0.sz, c) !in s0.used)
    ensures p == FreedStart(s0, c)
    ensures MergedSize(s0, c) == s0.sz[c] + (if back && p in s0.sz then s0.sz[p] else 0) + (if forth && Next(s0.sz, c) in s0.sz then s0.sz[Next(s0.sz, c)] else 0)
    ensures back ==> c in s0.prv && s0.prv[c] in s0.at
    ensures forth ==> Next(s0.sz, c) in s0.at
    ensures TouchesLast(s0, c) <==> (back && s0.at[s0.prv[c]] == LAST_REMAINDER) || (forth && s0.at[Next(s0.sz, c)] == LAST_REMAINDER)
  {
    if !forth { UsedIsUnbinned(s0, Next(s0.sz, c)); }
    hide Tiled, Placed, Settled, PrevInUse, Off;
  }

  /** The run, once both neighbours have been looked at, and whether the last remainder was one of them. */
  lemma GatherEnds(s0: Shape, s: Shape, c: int, p: int, back: bool, forth: bool, sz: int, islr: bool)
    requires Tiled(s0) && Placed(s0) && Settled(s0) && c in s0.used && c in s0.sz && Next(s0.sz, c) != s0.top
    requires Gathering(s0, s, c, p, back, forth) && back == (PrevInUse(s0, c) == 0) && forth == (Next(s0.sz, c) !in s0.used)
    requires sz == s0.sz[c] + (if back && p in s0.sz then s0.sz[p] else 0) + (if forth && Next(s0.sz, c) in s0.sz then s0.sz[Next(s0.sz, c)] else 0)
    requires islr <==> (back && p in s0.at && s0.at[p] == LAST_REMAINDER) || (forth && Next(s0.sz, c) in s0.at && s0.at[Next(s0.sz, c)] == LAST_REMAINDER)
    ensures var k := (if back then 1 else 0) + (if forth then 1 else 0); LooseRun(s, p, k) && sz == RunSize(s, p, k)
    ensures p == FreedStart(s0, c) && sz == MergedSize(s0, c) && (islr <==> TouchesLast(s0, c))
  {
    RunGathered(s0, s, c, p, back, forth);
    Gathered(s0, s, c, p, back, forth);
    assert back ==> p == s0.prv[c];
    hide *;
  }

  lemma GatherStart(s0: Shape, c: int)
    requires Tiled(s0) && Placed(s0) && Settled(s0) && c in s0.used && c in s0.sz
    ensures Gathering(s0, WithUse(s0, c, false), c, c, false, false)
    ensures IsLoose(WithUse(s0, c, false), c) && WithUse(s0, c, false).sz == s0.sz && WithUse(s0, c, false).at == s0.at
  {
    hide Tiled, Placed, Settled, PrevInUse, SettledBut, IsFree;
    ReleasedFacts(s0, c);
  }

  lemma GatherBack(s0: Shape, s: Shape, c: int)
    requires Tiled(s0) && Placed(s0) && Settled(s0) && c in s0.used && c in s0.sz && PrevInUse(s0, c) == 0
    requires Gathering(s0, s, c, c, false, false)
    ensures Placed(s) && c in s0.prv && s0.prv[c] in s0.sz && s0.prv[c] in s.at && s0.prv[c] != c
    ensures Gathering(s0, Off(s, s0.prv[c]), c, s0.prv[c], true, false)
  {
    hide Tiled, Placed, Settled, PrevInUse, SettledBut, Off;
    ReleasedFacts(s0, c);
    PrevIsFree(s0, c);
    OffPlaced(s, s0.prv[c]);
  }

  lemma GatherForth(s0: Shape, s: Shape, c: int, p: int, back: bool)
    requires Tiled(s0) && Placed(s0) && Settled(s0) && c in s0.used && c in s0.sz && Next(s0.sz, c) != s0.top
    requires Gathering(s0, s, c, p, back, false) && Next(s0.sz, c) !in s0.used && back == (PrevInUse(s0, c) == 0)
    ensures Placed(s) && Next(s0.sz, c) in s.at && Next(s0.sz, c) != p
    ensures Gathering(s0, Off(s, Next(s0.sz, c)), c, p, back, true)
  {
    hide Tiled, Placed, Settled, PrevInUse, SettledBut, Off;
    ReleasedFacts(s0, c);
    if back { PrevIsFree(s0, c); }
    assert IsFree(s0, Next(s0.sz, c));
  }

  /** The list that the chunk behind is on is still the one it was on. */
  lemma ForthStill(s0: Shape, s: Shape, c: int, p: int, back: bool)
    requires c in s0.sz && Gathering(s0, s, c, p, back, false) && Next(s0.sz, c) in s.at
    ensures Next(s0.sz, c) in s0.at && s.at[Next(s0.sz, c)] == s0.at[Next(s0.sz, c)]
  {
    hide Placed, Off;
  }

  lemma GatheringKeeps(s0: Shape, s: Shape, c: int, p: int, back: bool, forth: bool)
    requires c in s0.sz && Gathering(s0, s, c, p, back, forth)
    ensures s.sz == s0.sz && s.top == s0.top && s.used == s0.used - {c}
  {
    hide Placed, Off;
  }

  lemma WithoutThenSame(s: Shape, t: Shape, u: Shape, p: int)
    requires WithoutLive(s, t, p) && SameUses(t, u)
    ensures WithoutLive(s, u, p)
  {
    forall q | q in u.used ensures q in u.sz && q in t.sz && u.sz[q] == t.sz[q] { assert q in t.used; }
  }

  lemma WithoutThenBin(s: Shape, t: Shape, p: int, q: int, i: nat, j: nat)
    requires WithoutLive(s, t, p) && i < |t.bins| && j <= |t.bins[i]|
    ensures WithoutLive(s, BinInto(t, q, i, j), p)
  {
    hide BinInto;
  }

  lemma LiveAcross(m0: Mem, m1: Mem, m2: Mem, s: Shape, t: Shape)
    requires SameLive(m0, m1, s) && SameLive(m1, m2, t) && SameUses(s, t)
    ensures SameLive(m0, m2, t)
  {
    assert forall q :: q in t.used && q in t.sz ==> q in s.used && q in s.sz && s.sz[q] == t.sz[q];
    hide SameUses, SameLive;
    LiveTrans(m0, m1, m2, s, t);
  }

  lemma HoldingParts(m: Mem, g: Mem, s: Shape, blocks: bv32, p: int, islr: bool)
    requires Holding(m, g, s, blocks, p, islr)
    ensures Core(g, s, blocks) && Tiled(s) && Placed(s) && IsLoose(s, p) && |s.bins| == NAV && (!islr ==> m == g)
    ensures islr ==> s.bins[LAST_REMAINDER] == []
  {
    CoreParts(g, s, blocks);
    hide Core, Tiled, LinkWrites;
  }

  // ---- free: a chunk that borders top ----

  lemma TopTakesShape(s: Shape, p: int)
    requires Tiled(s) && p in s.sz && p != s.top && Next(s.sz, p) == s.top
    ensures var t := Fuse(s, p, false);
            && s.top in s.sz && p in t.sz && t.sz[p] == s.sz[p] + s.sz[s.top] && t.top == p && t.at == s.at && t.bins == s.bins
            && t.used == s.used - {p} && PrevInUse(t, p) == PrevInUse(s, p)
            && (forall q :: q in t.used && q in s.sz ==> q in t.sz && t.sz[q] == s.sz[q])
            && (forall q :: IsFree(t, q) ==> IsFree(s, q) && q != p && t.sz[q] == s.sz[q])
            && t.sz.Keys == s.sz.Keys - {s.top}
  {
    FuseSizes(s, p, false);
    FuseHead(s, p, false, p);
    assert s.top !in s.used;
    hide Tiled, PrevInUse;
  }

  lemma UsedFacts(s: Shape, p: int)
    requires Tiled(s) && Placed(s) && p in s.used
    ensures p in s.sz && p != s.top && p !in s.at && p + s.sz[p] in s.sz && p < p + s.sz[p] && s.top !in s.at && s.top !in s.used
    ensures s.top != INITIAL_TOP
  {
    if p in s.at { BinnedIsChunk(s, p); }
    BinnedIsNotTop(s);
    NextChunk(s, p);
    hide Placed, Bounded, Linked, Apart;
  }

  lemma TopTakesSettles(s: Shape, p: int)
    requires Tiled(s) && Settled(s) && p in s.used && p in s.sz && Next(s.sz, p) == s.top && PrevInUse(s, p) == 1
    requires p != s.top
    ensures Settled(Fuse(s, p, false))
  {
    hide Tiled, PrevInUse, Fuse;
    TopTakesShape(s, p);
    var t := Fuse(s, p, false);
    forall y | IsFree(t, y) ensures y in t.at && y + t.sz[y] in t.used
    {
      assert IsFree(s, y) && Next(s.sz, y) in s.used;
      NotBeforeUsed(s, p, y);
    }
  }

  /** A chunk bordering top, its predecessor in use, becomes the new top with one write. */
  lemma TopTakes(m: Mem, s: Shape, blocks: bv32, p: int)
    requires Core(m, s, blocks) && Settled(s) && p in s.used && p in s.sz && Next(s.sz, p) == s.top && PrevInUse(s, p) == 1
    ensures s.top in s.sz
    ensures var t := Fuse(s, p, false);
            var m2 := m[p + SIZE := s.sz[p] + s.sz[s.top] + 1];
            Core(m2, t, blocks) && Settled(t) && SameLive(m, m2, t)
  {
    hide Core, SameLive, PrevInUse, Tiled, Placed, Settled, Fuse;
    CoreParts(m, s, blocks);
    UsedFacts(s, p);
    TopTakesSettles(s, p);
    FuseCore(m, s, blocks, p, false);
  }

  lemma NotBeforeUsed(s: Shape, p: int, y: int)
    requires Tiled(s) && p in s.sz && PrevInUse(s, p) == 1 && IsFree(s, y)
    ensures Next(s.sz, y) != p
  {
    NextChunk(s, y);
    hide Tiled;
  }

  lemma HeadIs(m: Mem, s: Shape, blocks: bv32, p: int)
    requires Core(m, s, blocks) && p in s.used && p in s.sz
    ensures Next(s.sz, p) in s.sz && m[Next(s.sz, p) + SIZE] == s.sz[Next(s.sz, p)] + 1
  {
    CoreParts(m, s, blocks);
    assert p != s.top;
    hide Placed, Feet, Rings, Marks;
    NextUses(s, p);
    NextChunk(s, p);
    hide Tiled;
  }

  /** The loose chunk q joined with the chunk in use after it: the result is in use. */
  lemma AbsorbIntoPrev(m: Mem, s: Shape, blocks: bv32, q: int)
    requires Core(m, s, blocks) && IsLoose(s, q) && PrevInUse(s, q) == 1 && Next(s.sz, q) in s.used
    ensures Next(s.sz, q) in s.sz
    ensures var p := Next(s.sz, q);
            var m2 := m[q + SIZE := s.sz[q] + s.sz[p] + 1];
            Core(m2, Fuse(s, q, true), blocks) && SameLive(m, m2, Fuse(s, q, true)) && PrevInUse(Fuse(s, q, true), q) == 1
  {
    hide Core, SameLive, PrevInUse, Tiled, Placed, Heads, Fuse, FuseWrites;
    CoreParts(m, s, blocks);
    var p := Next(s.sz, q);
    UsedFacts(s, p);
    NextChunk(s, q);
    HeadIs(m, s, blocks, p);
    FuseHead(s, q, true, q);
    AbsorbWrites(m, s, q, p, Next(s.sz, p));
    FuseCore(m, s, blocks, q, true);
  }

  lemma AbsorbWrites(m: Mem, s: Shape, q: int, p: int, n: int)
    requires q in s.sz && p == Next(s.sz, q) && p in s.sz && n == Next(s.sz, p) && n in s.sz && p != s.top && n != q
    requires m[n + SIZE] == s.sz[n] + 1 && PrevInUse(s, q) == 1
    ensures FuseWrites(m, s, q, true) == m[q + SIZE := s.sz[q] + s.sz[p] + 1]
  {
    hide PrevInUse;
    WriteSame(m[q + SIZE := s.sz[q] + s.sz[p] + 1], n + SIZE, s.sz[n] + 1);
  }

  lemma AbsorbShape(s: Shape, q: int)
    requires Tiled(s) && IsLoose(s, q) && Next(s.sz, q) in s.used
    ensures var p, t := Next(s.sz, q), Fuse(s, q, true);
            && p in s.sz && p != s.top && q != p && t.used == s.used - {p} + {q} && t.top == s.top && t.at == s.at && t.bins == s.bins
            && q in t.sz && t.sz[q] == s.sz[q] + s.sz[p] && Next(t.sz, q) == Next(s.sz, p) && Next(s.sz, p) in t.sz
            && (forall y :: y in t.sz <==> y in s.sz && y != p)
            && (forall y :: y in t.sz && y != q ==> t.sz[y] == s.sz[y])
  {
    FuseSizes(s, q, true);
    NextChunk(s, q);
    assert Next(s.sz, q) in s.sz && Next(s.sz, q) != s.top;
    hide Tiled;
  }

  lemma AbsorbSettles(s: Shape, q: int)
    requires Tiled(s) && IsLoose(s, q) && PrevInUse(s, q) == 1 && Next(s.sz, q) in s.used && SettledBut(s, {q})
    ensures Settled(Fuse(s, q, true))
  {
    hide Tiled, PrevInUse, Fuse;
    AbsorbShape(s, q);
    var t := Fuse(s, q, true);
    forall y | IsFree(t, y) ensures y in t.at && y + t.sz[y] in t.used
    {
      assert IsFree(s, y) && y != q;
      NotBeforeUsed(s, q, y);
      NextChunk(s, y);
      NextChunk(s, q);
    }
  }

  /** Chunks in use in t have the sizes that they have in s. */
  ghost predicate SizesKept(s: Shape, t: Shape)
  {
    forall y :: y in t.used && y in s.sz ==> y in t.sz && t.sz[y] == s.sz[y]
  }

  /** The shapes on the way: chunk p behind q joined with q, then that with top. */
  lemma TopTakesBackShapes(s: Shape, q: int)
    requires Tiled(s) && IsLoose(s, q) && Next(s.sz, q) in s.used && Next(s.sz, q) in s.sz && Next(s.sz, Next(s.sz, q)) == s.top
    requires Tiled(Fuse(s, q, true))
    ensures var p, s1 := Next(s.sz, q), Fuse(s, q, true);
            && s.top in s.sz && q in s1.used && q in s1.sz && q != s1.top && s1.sz[q] == s.sz[q] + s.sz[p]
            && Next(s1.sz, q) == s1.top == s.top && s1.top in s1.sz && s1.sz[s1.top] == s.sz[s.top]
            && var t := Fuse(s1, q, false);
               && q in t.sz && t.sz[q] == s.sz[q] + s.sz[p] + s.sz[s.top] && t.used == s.used - {p} == s1.used - {q} && t.top == q
               && t.sz.Keys <= s1.sz.Keys && SizesKept(s1, t) && SizesKept(s, t)
  {
    var p, s1 := Next(s.sz, q), Fuse(s, q, true);
    AbsorbShape(s, q);
    NextChunk(s, p);
    TopTakesShape(s1, q);
    hide Tiled, Placed, PrevInUse;
  }

  /** The same with the free chunk before taken along. */
  lemma TopTakesBack(m: Mem, s: Shape, blocks: bv32, q: int) returns (t: Shape)
    requires Core(m, s, blocks) && IsLoose(s, q) && PrevInUse(s, q) == 1 && SettledBut(s, {q})
    requires Next(s.sz, q) in s.used && Next(s.sz, q) in s.sz && Next(s.sz, Next(s.sz, q)) == s.top
    ensures s.top in s.sz && q in t.sz && t.sz[q] == s.sz[q] + s.sz[Next(s.sz, q)] + s.sz[s.top]
    ensures Core(m[q + SIZE := t.sz[q] + 1], t, blocks) && Settled(t) && SameLive(m, m[q + SIZE := t.sz[q] + 1], t)
    ensures t.used == s.used - {Next(s.sz, q)} && t.top == q
    ensures SizesKept(s, t)
  {
    hide Core, SameLive, PrevInUse, Tiled, Placed, Settled, SettledBut, Fuse, SizesKept;
    CoreParts(m, s, blocks);
    var p := Next(s.sz, q);
    AbsorbSettles(s, q);
    AbsorbIntoPrev(m, s, blocks, q);
    var s1, m1 := Fuse(s, q, true), m[q + SIZE := s.sz[q] + s.sz[p] + 1];
    CoreParts(m1, s1, blocks);
    TopTakesBackShapes(s, q);
    TopTakes(m1, s1, blocks, q);
    t := Fuse(s1, q, false);
    Overwrite(m, q + SIZE, s1.sz[q] + 1, t.sz[q] + 1);
    TopTakesLive(m, m1, m1[q + SIZE := t.sz[q] + 1], s1, t, q);
  }

  lemma Overwrite(m: Mem, a: int, u: int, v: int)
    ensures m[a := u][a := v] == m[a := v]
  {
  }

  lemma TopTakesLive(m: Mem, m1: Mem, m2: Mem, s1: Shape, t: Shape, q: int)
    requires SameLive(m, m1, s1) && SameLive(m1, m2, t) && t.used == s1.used - {q} && t.sz.Keys <= s1.sz.Keys
    requires SizesKept(s1, t)
    ensures SameLive(m, m2, t)
  {
    hide SameLive;
    forall y | y in t.used && y in t.sz ensures y in s1.used && y in s1.sz && s1.sz[y] == t.sz[y] {}
    LiveTrans(m, m1, m2, s1, t);
  }

  lemma SettledIsBut(s: Shape)
    requires Settled(s)
    ensures SettledBut(s, {})
  {
    forall y | IsFree(s, y) ensures y in s.at && y + s.sz[y] in s.used { assert Next(s.sz, y) in s.used; }
  }

  /** The free chunk before p: found through its foot, binned, and ready to be taken. */
  lemma PrevReady(m: Mem, s: Shape, blocks: bv32, p: int)
    requires Core(m, s, blocks) && Settled(s) && p in s.sz && PrevInUse(s, p) == 0
    ensures Placed(s) && p in s.prv && s.prv[p] in s.at && s.prv[p] in s.sz && p - m[p] == s.prv[p] && m[p] == s.sz[s.prv[p]]
    ensures var q := s.prv[p];
            var t := Off(s, q);
            IsLoose(t, q) && PrevInUse(t, q) == 1 && SettledBut(t, {q}) && Next(t.sz, q) == p && q < p
  {
    hide Core, Tiled, Placed, Settled, SettledBut, PrevInUse, Off, IsFree, Walled;
    CoreParts(m, s, blocks);
    PrevIsFree(s, p);
    var q := s.prv[p];
    FreeIsWalled(s, q);
    assert PrevInUse(s, q) == 1 by { WalledIs(s, q); }
    FootReads(m, s, blocks, q);
    OffCore(m, s, blocks, q);
    SettledIsBut(s);
    OffSettles(s, {}, q);
    OffKeepsPrevInUse(s, q, q);
    assert {} + {q} == {q};
  }

  lemma WalledIs(s: Shape, p: int)
    requires Walled(s, p)
    ensures PrevInUse(s, p) == 1
  {
  }

  /** Live chunks after one was given up. */
  lemma LiveMinus(s: Shape, t: Shape, p: int)
    requires t.used == s.used - {p} && t.used <= t.sz.Keys && s.used <= s.sz.Keys
    requires forall q :: q in t.used && q in s.sz ==> q in t.sz && t.sz[q] == s.sz[q]
    ensures Live(t) == Live(s) - {p}
  {
    forall q | q in Live(s) - {p} ensures q in Live(t) && Live(t)[q] == Live(s)[q] { assert q in t.used; }
    forall q | q in Live(t) ensures q in Live(s) - {p} { assert q in s.used; }
  }

  lemma UsedAreChunks(s: Shape)
    requires Tiled(s)
    ensures s.used <= s.sz.Keys
  {
    hide Bounded, Linked, Apart;
  }

  lemma CoreChunks(m: Mem, s: Shape, blocks: bv32)
    requires Core(m, s, blocks)
    ensures s.used <= s.sz.Keys && Tiled(s) && Placed(s)
  {
    CoreParts(m, s, blocks);
    hide Core, Placed;
    UsedAreChunks(s);
  }

  lemma BackLive(m0: Mem, m1: Mem, m2: Mem, s: Shape, t: Shape)
    requires SameLive(m0, m1, s) && SameLive(m1, m2, t) && t.used <= s.used && s.used <= s.sz.Keys
    requires forall q :: q in t.used && q in s.sz ==> q in t.sz && t.sz[q] == s.sz[q]
    ensures SameLive(m0, m2, t)
  {
    hide SameLive;
    forall q | q in t.used && q in t.sz ensures q in s.used && q in s.sz && s.sz[q] == t.sz[q] {}
    LiveTrans(m0, m1, m2, s, t);
  }

  /** The new top's tag after free, and the client's view. */
  /** Where the chunk starts that p becomes part of when it is freed. */
  ghost function FreedStart(s: Shape, p: int): int { if PrevInUse(s, p) == 0 && p in s.prv then s.prv[p] else p }

  ghost predicate FreedIntoTop(m: Mem, m2: Mem, s: Shape, t: Shape, blocks: bv32, p: int, q: int, size: int)
  {
    && Core(m2, t, blocks) && Settled(t) && SameLive(m, m2, t) && Live(t) == Live(s) - {p}
    && t.top == q && q in t.sz && t.sz[q] == size && q != INITIAL_TOP
  }

  lemma TopFree(m: Mem, s: Shape, blocks: bv32, p: int) returns (t: Shape)
    requires Core(m, s, blocks) && Settled(s) && p in s.used && p in s.sz && Next(s.sz, p) == s.top && PrevInUse(s, p) == 1
    ensures s.top in s.sz
    ensures FreedIntoTop(m, m[p + SIZE := s.sz[p] + s.sz[s.top] + 1], s, t, blocks, p, p, s.sz[p] + s.sz[s.top])
    ensures FreedStart(s, p) == p
  {
    hide Core, Settled, SameLive, PrevInUse, Tiled, Placed, Fuse, Live;
    CoreChunks(m, s, blocks);
    UsedFacts(s, p);
    TopTakes(m, s, blocks, p);
    TopTakesShape(s, p);
    t := Fuse(s, p, false);
    CoreChunks(m[p + SIZE := s.sz[p] + s.sz[s.top] + 1], t, blocks);
    LiveMinus(s, t, p);
    HeadReads(m, s, blocks, p);
  }

  lemma TopFreeBack(m: Mem, s: Shape, blocks: bv32, p: int) returns (t: Shape)
    requires Core(m, s, blocks) && Settled(s) && p in s.used && p in s.sz && Next(s.sz, p) == s.top && PrevInUse(s, p) == 0
    ensures p in s.prv && s.prv[p] in s.sz && s.prv[p] in s.at && p - m[p] == s.prv[p] && m[p] == s.sz[s.prv[p]] && s.top in s.sz
    ensures FreedStart(s, p) == s.prv[p]
    ensures var q, size := s.prv[p], s.sz[s.prv[p]] + s.sz[p] + s.sz[s.top];
            FreedIntoTop(m, UnlinkWrites(m, q)[q + SIZE := size + 1], s, t, blocks, p, q, size)
  {
    hide Core, Settled, SettledBut, SameLive, PrevInUse, Tiled, Placed, Fuse, Live, Off, UnlinkWrites, IsLoose;
    CoreChunks(m, s, blocks);
    PrevReady(m, s, blocks, p);
    var q := s.prv[p];
    OffCore(m, s, blocks, q);
    var s1, m1 := Off(s, q), UnlinkWrites(m, q);
    t := TopTakesBack(m1, s1, blocks, q);
    var m2 := m1[q + SIZE := t.sz[q] + 1];
    LiveSameShape(m, m1, s, s1);
    CoreChunks(m2, t, blocks);
    BackLive(m, m1, m2, s1, t);
    LiveMinus(s, t, p);
    HeadReads(m2, t, blocks, q);
  }

  lemma FreedIntoTopParts(m: Mem, m2: Mem, s: Shape, t: Shape, blocks: bv32, p: int, q: int, size: int)
    requires FreedIntoTop(m, m2, s, t, blocks, p, q, size)
    ensures Core(m2, t, blocks) && Settled(t) && SameLive(m, m2, t) && Live(t) == Live(s) - {p}
    ensures t.top == q && q in t.sz && t.sz[q] == size && q != INITIAL_TOP
  {
  }

  lemma WithoutTop(s: Shape, t: Shape, p: int)
    requires WithoutLive(s, t, p) && s.top in s.sz
    ensures t.top == s.top && s.top in t.sz && t.sz[s.top] == s.sz[s.top]
  {
  }

  lemma LiveChain(m0: Mem, m1: Mem, m2: Mem, s: Shape, t: Shape)
    requires SameLive(m0, m1, s) && SameLive(m1, m2, t)
    requires forall q :: q in Live(t) ==> q in Live(s) && Live(s)[q] == Live(t)[q]
    ensures SameLive(m0, m2, t)
  {
    forall q | q in t.used && q in t.sz ensures q in s.used && q in s.sz && s.sz[q] == t.sz[q] { assert q in Live(t); }
    hide SameLive, Live;
    LiveTrans(m0, m1, m2, s, t);
  }
}
