/** What malloc's search for a fitting chunk knows about the bins. */
module HeapSearch {
  import opened HeapSizes
  import opened HeapShape
  import opened HeapMemory
  import opened HeapSteps
  import opened HeapTake

  /** q sits in an ordinary bin (not the last remainder's) and can hold nb bytes. */
  ghost predicate Candidate(s: Shape, q: int, nb: int)
  {
    q in s.at && s.at[q] != LAST_REMAINDER && q in s.sz && nb <= s.sz[q]
  }

  /** p is a smallest binned chunk that holds nb bytes. */
  ghost predicate BestFit(s: Shape, p: int, nb: int)
  {
    Candidate(s, p, nb) && forall q :: Candidate(s, q, nb) ==> s.sz[p] <= s.sz[q]
  }

  ghost predicate NoneBelow(s: Shape, nb: int, idx: int)
  {
    forall q :: Candidate(s, q, nb) ==> idx <= s.at[q]
  }

  /** Bins below idx cannot serve the request; bin idx, if it may hold smaller chunks too, holds a fitting one. */
  ghost predicate SearchFrom(s: Shape, nb: int, idx: int)
  {
    && MINSIZE <= nb && nb % 8 == 0 && 4 <= idx && BinIndex(nb) <= idx <= NAV && |s.bins| == NAV
    && NoneBelow(s, nb, idx)
    && (idx == BinIndex(nb) && idx < NAV ==> s.bins[idx] != [] && Candidate(s, s.bins[idx][0], nb))
  }

  lemma BinnedSize(m: Mem, s: Shape, blocks: bv32, q: int)
    requires Core(m, s, blocks) && q in s.at
    ensures q in s.sz && MINSIZE <= s.sz[q] && s.sz[q] % 8 == 0 && 1 <= s.at[q] < NAV == |s.bins| && q !in s.used && q != s.top
    ensures s.at[q] != LAST_REMAINDER ==> s.at[q] == BinIndex(s.sz[q])
  {
    hide Heads, Feet, Rings, Marks, BinIndex, Tiled;
    assert Homed(s, q);
    hide Core, Placed;
    HeadReads(m, s, blocks, q);
  }

  /** Sizes and bin numbers go together. */
  lemma HigherBinFits(m: Mem, s: Shape, blocks: bv32, q: int, nb: int)
    requires Core(m, s, blocks) && q in s.at && s.at[q] != LAST_REMAINDER && MINSIZE <= nb
    ensures q in s.sz && (s.at[q] > BinIndex(nb) ==> s.sz[q] > nb) && (s.at[q] < BinIndex(nb) ==> s.sz[q] < nb)
  {
    hide Core, BinIndex;
    BinnedSize(m, s, blocks, q);
    if s.sz[q] <= nb { BinIndexMonotone(s.sz[q], nb); } else { BinIndexMonotone(nb, s.sz[q]); }
  }

  lemma MemberOf(m: Mem, s: Shape, blocks: bv32, i: int, j: int)
    requires Core(m, s, blocks) && 2 <= i < NAV && |s.bins| == NAV && 0 <= j < |s.bins[i]|
    ensures s.bins[i][j] in s.at && s.at[s.bins[i][j]] == i && s.bins[i][j] in s.sz
    ensures forall k :: 0 <= k < |s.bins[i]| ==> s.bins[i][k] in s.sz
    ensures forall k :: j <= k < |s.bins[i]| ==> s.sz[s.bins[i][k]] <= s.sz[s.bins[i][j]]
    ensures forall k :: 0 <= k <= j ==> s.sz[s.bins[i][k]] >= s.sz[s.bins[i][j]]
  {
    WalkStep(m, s, blocks, i, j);
    WalkEnds(m, s, blocks, i);
    hide Core;
  }

  lemma BinOf(m: Mem, s: Shape, blocks: bv32, q: int) returns (j: int)
    requires Core(m, s, blocks) && q in s.at
    ensures 1 <= s.at[q] < NAV == |s.bins| && 0 <= j < |s.bins[s.at[q]]| && s.bins[s.at[q]][j] == q
  {
    hide Heads, Feet, Rings, Marks, Tiled;
    j := Pos(s, q);
  }

  /** A nonempty bin the search reaches holds a fitting chunk at its front. */
  lemma FrontFits(m: Mem, s: Shape, blocks: bv32, nb: int, idx: int)
    requires Core(m, s, blocks) && SearchFrom(s, nb, idx) && idx < NAV && s.bins[idx] != []
    ensures Candidate(s, s.bins[idx][0], nb)
  {
    hide Core, NoneBelow, BinIndex;
    MemberOf(m, s, blocks, idx, 0);
    HigherBinFits(m, s, blocks, s.bins[idx][0], nb);
  }

  /** Moving on past empty bins. */
  lemma SkipEmpty(m: Mem, s: Shape, blocks: bv32, nb: int, idx: int, next: int)
    requires Core(m, s, blocks) && SearchFrom(s, nb, idx) && idx < next <= NAV
    requires forall i :: idx <= i < next ==> s.bins[i] == []
    ensures SearchFrom(s, nb, next)
  {
    forall q | Candidate(s, q, nb) ensures next <= s.at[q]
    {
      var j := BinOf(m, s, blocks, q);
    }
    hide Core, BinIndex;
  }

  lemma UnmarkedEmpty(m: Mem, s: Shape, blocks: bv32, k: nat, i: int)
    requires Core(m, s, blocks) && k < 32 && !Marked(blocks, k) && 2 <= i < NAV && i / 4 == k
    ensures |s.bins| == NAV && s.bins[i] == []
  {
  }

  lemma SkipGroup(m: Mem, s: Shape, blocks: bv32, nb: int, idx: int)
    requires Core(m, s, blocks) && SearchFrom(s, nb, idx) && idx < NAV && !Marked(blocks, idx / 4)
    ensures SearchFrom(s, nb, idx - idx % 4 + 4)
  {
    hide Core, SearchFrom, Marked;
    assert 4 <= idx && |s.bins| == NAV by { SearchBounds(s, nb, idx); }
    forall i | idx <= i < idx - idx % 4 + 4 ensures s.bins[i] == [] { UnmarkedEmpty(m, s, blocks, idx / 4, i); }
    SkipEmpty(m, s, blocks, nb, idx, idx - idx % 4 + 4);
  }

  lemma SearchBounds(s: Shape, nb: int, idx: int)
    requires SearchFrom(s, nb, idx)
    ensures 4 <= idx <= NAV && |s.bins| == NAV && MINSIZE <= nb && nb % 8 == 0
  {
    hide NoneBelow, Candidate, BinIndex;
  }

  lemma SearchOver(m: Mem, s: Shape, blocks: bv32, nb: int)
    requires Core(m, s, blocks) && SearchFrom(s, nb, NAV)
    ensures forall q :: !Candidate(s, q, nb)
  {
    forall q | Candidate(s, q, nb) ensures false { BinnedSize(m, s, blocks, q); }
    hide Core;
  }

  /** The first fitting chunk met walking bin idx from its small end is a best fit. */
  lemma FoundBest(m: Mem, s: Shape, blocks: bv32, nb: int, idx: int, j: int)
    requires Core(m, s, blocks) && NoneBelow(s, nb, idx) && 2 <= idx < NAV && |s.bins| == NAV && 0 <= j < |s.bins[idx]|
    requires Candidate(s, s.bins[idx][j], nb)
    requires forall k :: j < k < |s.bins[idx]| ==> s.bins[idx][k] in s.sz && s.sz[s.bins[idx][k]] < nb
    ensures BestFit(s, s.bins[idx][j], nb)
  {
    hide Core, BinIndex;
    var p := s.bins[idx][j];
    MemberOf(m, s, blocks, idx, j);
    forall q | Candidate(s, q, nb) ensures s.sz[p] <= s.sz[q]
    {
      FoundBestThan(m, s, blocks, nb, idx, j, q);
    }
  }

  lemma FoundBestThan(m: Mem, s: Shape, blocks: bv32, nb: int, idx: int, j: int, q: int)
    requires Core(m, s, blocks) && NoneBelow(s, nb, idx) && 2 <= idx < NAV && |s.bins| == NAV && 0 <= j < |s.bins[idx]|
    requires forall k :: j < k < |s.bins[idx]| ==> s.bins[idx][k] in s.sz && s.sz[s.bins[idx][k]] < nb
    requires Candidate(s, q, nb)
    ensures s.bins[idx][j] in s.sz && s.sz[s.bins[idx][j]] <= s.sz[q]
  {
    hide Core, BinIndex;
    var p := s.bins[idx][j];
    MemberOf(m, s, blocks, idx, j);
    BinnedSize(m, s, blocks, p);
    BinnedSize(m, s, blocks, q);
    var k := BinOf(m, s, blocks, q);
    if s.at[q] != idx && s.sz[q] < s.sz[p] {
      BinIndexMonotone(s.sz[q], s.sz[p]);
    }
  }

  // ---- where the search starts ----

  lemma SmallStart(m: Mem, s: Shape, blocks: bv32, nb: int)
    requires Core(m, s, blocks) && |s.bins| == NAV && MINSIZE <= nb < MAX_SMALLBIN_SIZE - 8 && nb % 8 == 0
    requires s.bins[nb / 8] == [] && s.bins[nb / 8 + 1] == []
    ensures SearchFrom(s, nb, nb / 8 + 2)
  {
    SizeHasBin(nb);
    forall q | Candidate(s, q, nb) ensures nb / 8 + 2 <= s.at[q] { SmallCandidate(m, s, blocks, nb, q); }
    hide Core, BinIndex;
  }

  lemma SmallCandidate(m: Mem, s: Shape, blocks: bv32, nb: int, q: int)
    requires Core(m, s, blocks) && |s.bins| == NAV && MINSIZE <= nb < MAX_SMALLBIN_SIZE - 8 && nb % 8 == 0
    requires Candidate(s, q, nb)
    ensures s.bins[nb / 8] == [] ==> nb / 8 + 1 <= s.at[q] && nb + 8 <= s.sz[q]
    ensures s.bins[nb / 8] == [] && s.bins[nb / 8 + 1] == [] ==> nb / 8 + 2 <= s.at[q]
    ensures nb / 8 <= s.at[q]
  {
    hide *;
    CandidateIs(s, q, nb);
    BinnedSize(m, s, blocks, q);
    var j := BinOf(m, s, blocks, q);
    var size, i := s.sz[q], s.at[q];
    SizeHasBin(size);
    SizeHasBin(nb);
    BinIndexMonotone(nb, size);
    SmallSizes(nb, size, i, BinIndex(nb));
  }

  lemma CandidateIs(s: Shape, q: int, nb: int)
    requires Candidate(s, q, nb)
    ensures q in s.at && s.at[q] != LAST_REMAINDER && q in s.sz && nb <= s.sz[q]
  {
  }

  lemma SmallSizes(nb: int, size: int, i: int, bi: int)
    requires MINSIZE <= nb <= size && nb < MAX_SMALLBIN_SIZE - 8 && nb % 8 == 0 && size % 8 == 0
    requires (nb < 512 ==> bi == nb / 8) && (size < 512 ==> i == size / 8) && bi <= i
    ensures nb / 8 <= i && (i != nb / 8 ==> nb / 8 + 1 <= i && nb + 8 <= size)
  {
  }

  /** Chunks in a small bin all have the one size of that bin. */
  lemma SmallVictim(m: Mem, s: Shape, blocks: bv32, i: int, j: int)
    requires Core(m, s, blocks) && |s.bins| == NAV && 2 <= i < 64 && 0 <= j < |s.bins[i]|
    ensures s.bins[i][j] in s.at && s.at[s.bins[i][j]] == i && s.bins[i][j] in s.sz && s.sz[s.bins[i][j]] == 8 * i
  {
    hide Core;
    WalkStep(m, s, blocks, i, j);
    BinnedSize(m, s, blocks, s.bins[i][j]);
    SmallBinsHoldOneSize(s.sz[s.bins[i][j]]);
    hide BinIndex;
  }

  lemma SmallBest(m: Mem, s: Shape, blocks: bv32, nb: int, i: int, j: int)
    requires Core(m, s, blocks) && |s.bins| == NAV && MINSIZE <= nb < MAX_SMALLBIN_SIZE - 8 && nb % 8 == 0
    requires i == nb / 8 || (i == nb / 8 + 1 && s.bins[nb / 8] == [])
    requires 0 <= j < |s.bins[i]|
    ensures s.bins[i][j] in s.sz && nb <= s.sz[s.bins[i][j]] < nb + MINSIZE && BestFit(s, s.bins[i][j], nb)
  {
    hide Core;
    SmallVictim(m, s, blocks, i, j);
    forall q | Candidate(s, q, nb) ensures s.sz[s.bins[i][j]] <= s.sz[q] { SmallCandidate(m, s, blocks, nb, q); }
  }

  lemma LargeStart(m: Mem, s: Shape, blocks: bv32, nb: int)
    requires Core(m, s, blocks) && MAX_SMALLBIN_SIZE - 8 <= nb && nb % 8 == 0
    ensures 4 <= BinIndex(nb) <= 126 && |s.bins| == NAV && NoneBelow(s, nb, BinIndex(nb))
  {
    SizeHasBin(nb);
    BinIndexMonotone(504, nb);
    CoreParts(m, s, blocks);
    hide Core, Tiled;
    forall q | Candidate(s, q, nb) ensures BinIndex(nb) <= s.at[q] { HigherBinFits(m, s, blocks, q, nb); }
    hide Placed;
  }

  /** A large bin walked to the end without a fit: the search starts at the next bin. */
  lemma LargeNext(m: Mem, s: Shape, blocks: bv32, nb: int)
    requires Core(m, s, blocks) && MAX_SMALLBIN_SIZE - 8 <= nb && nb % 8 == 0 && 2 <= BinIndex(nb) < NAV && |s.bins| == NAV
    requires forall k :: 0 <= k < |s.bins[BinIndex(nb)]| ==> s.bins[BinIndex(nb)][k] in s.sz && s.sz[s.bins[BinIndex(nb)][k]] < nb
    ensures SearchFrom(s, nb, BinIndex(nb) + 1)
  {
    hide Core, BinIndex;
    LargeStart(m, s, blocks, nb);
    forall q | Candidate(s, q, nb) ensures BinIndex(nb) + 1 <= s.at[q]
    {
      var j := BinOf(m, s, blocks, q);
    }
  }

  /** The bins of exact fits, the request's own and for small ones the next, hold none. */
  ghost predicate NoExact(s: Shape, nb: int)
  {
    forall q {:trigger q in s.at} :: q in s.at && q in s.sz && (s.at[q] == BinIndex(nb) || (nb < MAX_SMALLBIN_SIZE - 8 && s.at[q] == nb / 8 + 1)) ==>
      s.sz[q] < nb || s.sz[q] >= nb + MINSIZE
  }

  /** What the last remainder holds, if anything, is less than nb bytes. */
  ghost predicate RemainderSmall(s: Shape, nb: int)
  {
    forall q {:trigger q in s.at} :: q in s.at && q in s.sz && s.at[q] == LAST_REMAINDER ==> s.sz[q] < nb
  }

  lemma ExactThere(m: Mem, s: Shape, blocks: bv32, nb: int, i: int, j: int)
    requires Core(m, s, blocks) && 2 <= i < NAV && |s.bins| == NAV && 0 <= j < |s.bins[i]|
    requires i == BinIndex(nb) || (nb < MAX_SMALLBIN_SIZE - 8 && i == nb / 8 + 1)
    requires s.bins[i][j] in s.sz && nb <= s.sz[s.bins[i][j]] < nb + MINSIZE
    ensures !NoExact(s, nb)
  {
    hide Core, BinIndex;
    MemberOf(m, s, blocks, i, j);
    var q := s.bins[i][j];
    assert q in s.at && q in s.sz && s.at[q] == i && !(s.sz[q] < nb || s.sz[q] >= nb + MINSIZE);
  }

  lemma RemainderIsSmall(s: Shape, t: Shape, nb: int)
    requires t.sz == s.sz && forall q :: q in s.at && q in t.sz && s.at[q] == LAST_REMAINDER ==> t.sz[q] < nb
    ensures RemainderSmall(s, nb)
  {
  }

  lemma NoneSmall(m: Mem, s: Shape, blocks: bv32, nb: int)
    requires Core(m, s, blocks) && |s.bins| == NAV && MINSIZE <= nb < MAX_SMALLBIN_SIZE - 8 && nb % 8 == 0
    requires s.bins[nb / 8] == [] && s.bins[nb / 8 + 1] == []
    ensures NoExact(s, nb)
  {
    SizeHasBin(nb);
    hide Core;
    forall q | q in s.at && q in s.sz && (s.at[q] == nb / 8 || s.at[q] == nb / 8 + 1) ensures false { var j := BinOf(m, s, blocks, q); }
  }

  lemma NoneLarge(m: Mem, s: Shape, blocks: bv32, nb: int, j: int)
    requires Core(m, s, blocks) && MAX_SMALLBIN_SIZE - 8 <= nb && nb % 8 == 0 && 2 <= BinIndex(nb) < NAV && |s.bins| == NAV
    requires var l := s.bins[BinIndex(nb)];
             && -1 <= j < |l| && (forall k :: j < k < |l| ==> l[k] in s.sz && s.sz[l[k]] < nb)
             && (j >= 0 ==> l[j] in s.sz && s.sz[l[j]] >= nb + MINSIZE)
    ensures NoExact(s, nb)
  {
    hide Core, BinIndex;
    var i := BinIndex(nb);
    forall q | q in s.at && q in s.sz && s.at[q] == i ensures s.sz[q] < nb || s.sz[q] >= nb + MINSIZE
    {
      var k := BinOf(m, s, blocks, q);
      if k < j { MemberOf(m, s, blocks, i, j); }
    }
  }

  /** No binned chunk, the last remainder included, holds nb bytes. */
  ghost predicate NothingFits(s: Shape, nb: int)
  {
    forall q {:trigger q in s.at} :: q in s.at && q in s.sz ==> s.sz[q] < nb
  }

  /** Top, if there is one, cannot give nb bytes and stay a chunk. */
  ghost predicate TopTooSmall(s: Shape, nb: int)
  {
    s.top == INITIAL_TOP || (s.top in s.sz && s.sz[s.top] < nb + MINSIZE)
  }

  lemma BestIsBinned(s: Shape, p: int, nb: int)
    requires BestFit(s, p, nb)
    ensures p in s.at && s.at[p] != LAST_REMAINDER && p in s.sz && nb <= s.sz[p]
  {
  }

  lemma NothingLeft(s: Shape, t: Shape, nb: int)
    requires t.sz == s.sz && forall q :: !Candidate(t, q, nb)
    requires forall q :: Candidate(t, q, nb) <==> Candidate(s, q, nb)
    requires forall q :: q in s.at && q in t.sz && s.at[q] == LAST_REMAINDER ==> t.sz[q] < nb
    ensures NothingFits(s, nb)
  {
    forall q | q in s.at && q in s.sz ensures s.sz[q] < nb { assert !Candidate(s, q, nb); }
  }

  lemma SameBest(s: Shape, t: Shape, p: int, nb: int)
    requires BestFit(t, p, nb) && t.sz == s.sz
    requires forall q :: Candidate(t, q, nb) <==> Candidate(s, q, nb)
    ensures BestFit(s, p, nb)
  {
  }

  // ---- the last remainder goes to an ordinary bin ----

  /** t is s with its last remainder v moved to position j of its size's bin. */
  ghost predicate Rebinned(s: Shape, t: Shape, v: int, j: nat)
    requires v in s.sz
  {
    var i := BinIndex(s.sz[v]);
    && 2 <= i < NAV == |s.bins| == |t.bins| && j <= |s.bins[i]| && t.bins[i] == Insert(s.bins[i], j, v) && t.bins[LAST_REMAINDER] == []
    && (forall k :: 2 <= k < NAV && k != i ==> t.bins[k] == s.bins[k])
    && t.at == s.at[v := i] && t.sz == s.sz && t.used == s.used && t.top == s.top
    && FrontPosition(s.sz, s.bins[i], j, s.sz[v])
  }

  lemma RebinnedBy(s: Shape, v: int, j: nat)
    requires Placed(s) && v in s.at && s.at[v] == LAST_REMAINDER && v in s.sz
    requires 2 <= BinIndex(s.sz[v]) < NAV == |Off(s, v).bins| && j <= |Off(s, v).bins[BinIndex(s.sz[v])]|
    requires FrontPosition(s.sz, Off(s, v).bins[BinIndex(s.sz[v])], j, s.sz[v])
    ensures Rebinned(s, BinInto(Off(s, v), v, BinIndex(s.sz[v]), j), v, j)
  {
    hide BinIndex, FrontPosition, Insert, Off;
    SlotAfterOff(s, v);
    OffElsewhere(s, v);
    hide Placed;
  }

  lemma RebinnedFront(s: Shape, t: Shape, v: int, j: nat, nb: int, idx: int)
    requires v in s.sz && s.sz[v] < nb && Rebinned(s, t, v, j) && 2 <= idx < NAV
    requires s.bins[idx] != [] && Candidate(s, s.bins[idx][0], nb)
    ensures t.bins[idx] != [] && t.bins[idx][0] == s.bins[idx][0]
  {
    hide BinIndex;
  }

  lemma RebinnedUnder(s: Shape, t: Shape, v: int, j: nat, nb: int)
    requires v in s.sz && s.sz[v] < nb && Rebinned(s, t, v, j)
    ensures forall q :: Candidate(t, q, nb) <==> Candidate(s, q, nb)
    ensures forall q :: Candidate(t, q, nb) ==> t.at[q] == s.at[q]
  {
    hide BinIndex, Insert, FrontPosition;
  }

  lemma RemainderBinned(m: Mem, s: Shape, t: Shape, blocks: bv32, v: int, nb: int, idx: int, j: nat)
    requires Core(m, s, blocks) && v in s.at && s.at[v] == LAST_REMAINDER && v in s.sz && s.sz[v] < nb
    requires SearchFrom(s, nb, idx) && Rebinned(s, t, v, j)
    ensures SearchFrom(t, nb, idx) && |t.bins| == NAV && t.bins[LAST_REMAINDER] == []
    ensures forall q :: Candidate(t, q, nb) <==> Candidate(s, q, nb)
  {
    hide Core, BinIndex, Insert, FrontPosition;
    SearchBounds(s, nb, idx);
    if idx == BinIndex(nb) && idx < NAV { RebinnedFront(s, t, v, j, nb, idx); }
    RebinnedUnder(s, t, v, j, nb);
  }

  lemma OffElsewhere(s: Shape, v: int)
    requires Placed(s) && v in s.at && s.at[v] == LAST_REMAINDER
    ensures |Off(s, v).bins| == NAV == |s.bins| && forall i :: 2 <= i < NAV ==> Off(s, v).bins[i] == s.bins[i]
  {
    hide Homed;
  }

  /** The header's back link: the last member, or the header itself when the bin is empty. */
  lemma LastOf(m: Mem, s: Shape, blocks: bv32, i: int)
    requires Core(m, s, blocks) && 2 <= i < NAV
    ensures |s.bins| == NAV
    ensures if s.bins[i] == [] then m[BinAt(i) + BK] == BinAt(i)
            else m[BinAt(i) + BK] == s.bins[i][|s.bins[i]| - 1] && m[BinAt(i) + BK] != BinAt(i)
  {
    WalkEnds(m, s, blocks, i);
    hide Core;
  }

  /** A large bin in which the walk met a chunk too big for an exact fit. */
  lemma TooBigStart(m: Mem, s: Shape, blocks: bv32, nb: int, j: int)
    requires Core(m, s, blocks) && MAX_SMALLBIN_SIZE - 8 <= nb && nb % 8 == 0 && 2 <= BinIndex(nb) < NAV && |s.bins| == NAV
    requires 0 <= j < |s.bins[BinIndex(nb)]| && s.bins[BinIndex(nb)][j] in s.sz && s.sz[s.bins[BinIndex(nb)][j]] >= nb
    ensures SearchFrom(s, nb, BinIndex(nb))
  {
    hide Core, BinIndex, NoneBelow;
    LargeStart(m, s, blocks, nb);
    MemberOf(m, s, blocks, BinIndex(nb), j);
    MemberOf(m, s, blocks, BinIndex(nb), 0);
  }

  lemma EndOfBin(m: Mem, s: Shape, blocks: bv32, i: int, j: int)
    requires Core(m, s, blocks) && 2 <= i < NAV && |s.bins| == NAV && -1 <= j < |s.bins[i]| && BinNode(s, i, j) == BinAt(i)
    ensures j == -1
  {
    WalkEnds(m, s, blocks, i);
    hide Core;
  }

  /** clear_last_remainder is an unlink of the slot's one chunk, whose foot stays set. */
  lemma ClearReads(m: Mem, s: Shape, blocks: bv32, v: int)
    requires Core(m, s, blocks) && Settled(s) && v in s.at && s.at[v] == LAST_REMAINDER
    ensures Placed(s) && v in s.sz
    ensures var m2, t := m[LAST + BK := LAST][LAST + FD := LAST], Off(s, v);
            Core(m2, t, blocks) && IsLoose(t, v) && m2[v + s.sz[v]] == s.sz[v] && SameLive(m, m2, s)
  {
    hide Core, Settled, Off, SameLive, IsLoose, PrevInUse;
    CoreParts(m, s, blocks);
    LastRemainderReads(m, s, blocks, v);
    OffCore(m, s, blocks, v);
    FootReads(m, s, blocks, v);
    HeadReads(m, s, blocks, v);
    assert UnlinkWrites(m, v) == m[LAST + BK := LAST][LAST + FD := LAST];
  }

  lemma RemainderSettles(m: Mem, s: Shape, blocks: bv32, v: int, j: nat)
    requires Placed(s) && Settled(s) && v in s.at && Core(m, Off(s, v), blocks) && Tiled(s) && v in s.sz
    requires 2 <= BinIndex(s.sz[v]) < NAV == |Off(s, v).bins| && j <= |Off(s, v).bins[BinIndex(s.sz[v])]|
    ensures Settled(BinInto(Off(s, v), v, BinIndex(s.sz[v]), j))
  {
    hide Core, Settled, Tiled, Placed, Off, SettledBut, IsLoose, BinIndex, PrevInUse, BinInto;
    CoreParts(m, Off(s, v), blocks);
    OffIsWalled(s, v);
    LooseFacts(Off(s, v), v);
    BinSettles(Off(s, v), v, BinIndex(s.sz[v]), j);
  }

  lemma LiveSameUses(s: Shape, t: Shape)
    requires t.used == s.used && t.sz == s.sz
    ensures Live(t) == Live(s)
  {
  }

  /** What the last remainder's slot holds. */
  lemma RemainderSlot(m: Mem, s: Shape, blocks: bv32)
    requires Core(m, s, blocks)
    ensures |s.bins| == NAV
    ensures if s.bins[LAST_REMAINDER] == [] then m[LAST + FD] == LAST
            else var v := m[LAST + FD]; v != LAST && v in s.at && s.at[v] == LAST_REMAINDER && v in s.sz && v !in s.used && BINS_END <= v
    ensures forall q :: q in s.at && s.at[q] == LAST_REMAINDER ==> m[LAST + FD] == q && s.bins[LAST_REMAINDER] != []
  {
    WalkEnds(m, s, blocks, LAST_REMAINDER);
    if s.bins[LAST_REMAINDER] != [] { WalkStep(m, s, blocks, LAST_REMAINDER, 0); }
    CoreParts(m, s, blocks);
    hide Core, Placed, Off;
    forall q | q in s.at && s.at[q] == LAST_REMAINDER ensures m[LAST + FD] == q && s.bins[LAST_REMAINDER] != []
    {
      LastRemainderReads(m, s, blocks, q);
    }
  }

  lemma HandedOutSize(m: Mem, m2: Mem, s: Shape, t: Shape, blocks: bv32, p: int, size: int)
    requires HandedOut(m, m2, s, t, blocks, p, size)
    ensures p in t.sz && t.sz[p] == size && Core(m2, t, blocks) && Settled(t) && p != 0 && p % 8 == 0 && BINS_END <= p
  {
  }

  lemma RebinnedFields(s: Shape, t: Shape, v: int, j: nat)
    requires v in s.sz && Rebinned(s, t, v, j)
    ensures t.sz == s.sz && t.used == s.used && t.top == s.top
  {
  }

  lemma SearchNone(s: Shape, nb: int, idx: int)
    requires SearchFrom(s, nb, idx)
    ensures NoneBelow(s, nb, idx)
  {
  }

  lemma ScannedEmpty(m: Mem, s: Shape, blocks: bv32, nb: int, idx: int)
    requires Core(m, s, blocks) && SearchFrom(s, nb, idx) && 4 <= idx < NAV && |s.bins| == NAV
    requires forall k :: 0 <= k < |s.bins[idx]| ==> s.bins[idx][k] in s.sz && s.sz[s.bins[idx][k]] < nb
    ensures s.bins[idx] == []
  {
    hide Core, SearchFrom;
    if s.bins[idx] != [] {
      FrontFits(m, s, blocks, nb, idx);
    }
  }

  lemma ClearKeepsMarks(m: Mem, s: Shape, blocks: bv32, k: nat)
    requires Core(m, s, blocks) && 1 <= k < 32 && |s.bins| == NAV
    requires forall i :: 4 * k <= i < 4 * k + 4 ==> s.bins[i] == []
    ensures Core(m, s, ClearMask(blocks, Bit(k)))
  {
    hide Tiled, Placed, Heads, Feet, Rings, Marked, Bit, ClearMask;
    forall i | 2 <= i < NAV && s.bins[i] != [] ensures Marked(ClearMask(blocks, Bit(k)), i / 4) { MarkGroup(blocks, k, i / 4); }
  }

  /** Nothing above the marked groups: the search has seen every bin. */
  lemma SearchExhausted(m: Mem, s: Shape, blocks: bv32, nb: int, idx: int)
    requires Core(m, s, blocks) && SearchFrom(s, nb, idx) && idx < NAV && !Within(blocks, Bit(idx / 4))
    ensures forall q :: !Candidate(s, q, nb)
  {
    hide Core, SearchFrom, Marked, Bit, Within;
    SearchBounds(s, nb, idx);
    BlockCompare(blocks, idx / 4);
    forall i | idx <= i < NAV ensures s.bins[i] == []
    {
      assert !Marked(blocks, i / 4);
      UnmarkedEmpty(m, s, blocks, i / 4, i);
    }
    SkipEmpty(m, s, blocks, nb, idx, NAV);
    SearchOver(m, s, blocks, nb);
  }
}
