/** What well-formedness means to a reader of the whole arena: it is exactly the run of its
    chunks, every free one on exactly one list. */
module HeapArena {
  import opened HeapSizes
  import opened HeapShape
  import opened HeapMemory
  import opened HeapSteps

  /** The chunks met walking up from p by sizes. */
  ghost function ChunksFrom(s: Shape, p: int): (l: seq<int>)
    requires Tiled(s) && p in s.sz
    ensures |l| > 0 && l[0] == p
    decreases s.top - p
  {
    if p == s.top then [p]
    else
      NextChunk(s, p);
      [p] + ChunksFrom(s, Next(s.sz, p))
  }

  ghost function SumOf(sz: Sizes, l: seq<int>): int
    requires forall j :: 0 <= j < |l| ==> l[j] in sz
  {
    if l == [] then 0 else sz[l[0]] + SumOf(sz, l[1..])
  }

  lemma {:induction false} WalkVisitsChunks(s: Shape, p: int)
    requires Tiled(s) && p in s.sz
    ensures forall q :: q in ChunksFrom(s, p) <==> q in s.sz && p <= q
    decreases s.top - p
  {
    var l := ChunksFrom(s, p);
    if p == s.top {
      forall q | q in s.sz && p <= q ensures q == p { assert Legal(q, s.sz[q]) && q <= s.top; }
    } else {
      NextChunk(s, p);
      var n := Next(s.sz, p);
      WalkVisitsChunks(s, n);
      assert l == [p] + ChunksFrom(s, n);
      forall q | q in s.sz && p <= q ensures q in l
      {
        assert q != p ==> n <= q;
      }
    }
  }

  lemma {:induction false} WalkSums(s: Shape, p: int)
    requires Tiled(s) && p in s.sz
    ensures forall j :: 0 <= j < |ChunksFrom(s, p)| ==> ChunksFrom(s, p)[j] in s.sz
    ensures s.top in s.sz && SumOf(s.sz, ChunksFrom(s, p)) == s.top + s.sz[s.top] - p
    decreases s.top - p
  {
    var l := ChunksFrom(s, p);
    if p != s.top {
      NextChunk(s, p);
      WalkSums(s, Next(s.sz, p));
      assert l[1..] == ChunksFrom(s, Next(s.sz, p));
    }
  }

  /** Walking the sizes from the base meets every chunk, and their sizes add up to the arena. */
  lemma ArenaIsItsChunks(s: Shape)
    requires Tiled(s) && s.top != INITIAL_TOP
    ensures s.base in s.sz && s.top in s.sz
    ensures forall q :: q in ChunksFrom(s, s.base) <==> q in s.sz
    ensures forall j :: 0 <= j < |ChunksFrom(s, s.base)| ==> ChunksFrom(s, s.base)[j] in s.sz
    ensures SumOf(s.sz, ChunksFrom(s, s.base)) == s.top + s.sz[s.top] - s.base
  {
    WalkVisitsChunks(s, s.base);
    WalkSums(s, s.base);
  }

  /** Every address of the arena lies in exactly one chunk. */
  lemma {:induction false} AddressHasChunk(s: Shape, p: int, a: int) returns (q: int)
    requires Tiled(s) && p in s.sz && s.top in s.sz && p <= a < s.top + s.sz[s.top]
    ensures q in s.sz && q <= a < Next(s.sz, q)
    ensures forall x :: x in s.sz && x <= a < Next(s.sz, x) ==> x == q
    decreases s.top - p
  {
    q := p;
    if a >= Next(s.sz, p) {
      assert p != s.top;
      NextChunk(s, p);
      q := AddressHasChunk(s, Next(s.sz, p), a);
    }
  }

  lemma OnceBinned(s: Shape, p: int, i: int, j: int)
    requires Placed(s) && p in s.at && 0 <= i < NAV && 0 <= j < |s.bins[i]| && s.bins[i][j] == p
    ensures i == s.at[p] && j == Pos(s, p)
  {
    hide BinIndex, Homed;
    assert Members(s.at, s.bins[i], i) && Descending(s.sz, s.bins[i]);
  }

  lemma BeforeFree(s: Shape, p: int)
    requires p in s.sz && Tiled(s) && Walled(s, p) && p != s.base
    ensures p in s.prv && s.prv[p] in s.used
  {
    PrevChunk(s, p);
  }

  lemma FreeReads(m: Mem, s: Shape, blocks: bv32, p: int)
    requires Core(m, s, blocks) && Walled(s, p) && p in s.at
    ensures p in s.sz && m[p + SIZE] == s.sz[p] + 1 && m[Next(s.sz, p)] == s.sz[p] && Next(s.sz, p) in s.used
    ensures |s.bins| == NAV && 1 <= s.at[p] < NAV
  {
    hide Core, Tiled, PrevInUse;
    FootReads(m, s, blocks, p);
    HeadOf(m, s, blocks, p);
    CoreParts(m, s, blocks);
    var j := Pos(s, p);
  }

  /** Between operations: a free chunk is on exactly one list, once; its size word and foot
      agree; both its neighbours are in use and it does not border top. */
  lemma FreeChunksInOrder(m: Mem, s: Shape, blocks: bv32, p: int)
    requires Core(m, s, blocks) && Settled(s) && IsFree(s, p)
    ensures |s.bins| == NAV && p in s.at && 1 <= s.at[p] < NAV
    ensures forall i, j :: 0 <= i < NAV && 0 <= j < |s.bins[i]| && s.bins[i][j] == p ==> i == s.at[p] && j == Pos(s, p)
    ensures p in s.sz && m[p + SIZE] == s.sz[p] + 1 && m[Next(s.sz, p)] == s.sz[p] && Next(s.sz, p) in s.used
    ensures p != s.base ==> p in s.prv && s.prv[p] in s.used
  {
    hide *;
    CoreParts(m, s, blocks);
    FreeIsWalled(s, p);
    FreeReads(m, s, blocks, p);
    if p != s.base { BeforeFree(s, p); }
    forall i, j | 0 <= i < NAV && 0 <= j < |s.bins[i]| && s.bins[i][j] == p ensures i == s.at[p] && j == Pos(s, p)
    {
      OnceBinned(s, p, i, j);
    }
  }
}
