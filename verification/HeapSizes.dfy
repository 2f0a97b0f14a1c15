// Size arithmetic of the boundary-tag allocator: request padding, bin numbering
// and the one-word bitmap that says which groups of four bins may be occupied.
module HeapSizes {

  const WORD := 4           // SIZE_SZ
  const ALIGNMENT := 8      // MALLOC_ALIGNMENT
  const MINSIZE := 16       // sizeof(struct malloc_chunk)
  const NAV := 128          // number of bins
  const MAX_SMALLBIN_SIZE := 512
  const PAGE := 4096        // malloc_getpagesize
  const TWO31 := 0x8000_0000
  const TWO32 := 0x1_0000_0000

  /** A 32-bit word read as a signed long. */
  function AsLong(x: int): int
  {
    var w := x % TWO32;
    if w < TWO31 then w else w - TWO32
  }

  /** request2size: the padded chunk size, computed in 32-bit unsigned arithmetic
      with the source's signed comparison. */
  function Request2Size(req: nat): (nb: nat)
    requires req < TWO32
    ensures nb % ALIGNMENT == 0 && nb >= MINSIZE
  {
    var padded := (req + WORD + ALIGNMENT - 1) % TWO32;
    if AsLong(padded) < MINSIZE + ALIGNMENT - 1 then MINSIZE else padded - padded % ALIGNMENT
  }

  /** A padded size has room for the request and its one-word overhead exactly when
      padding does not carry the request past the largest signed long. Requests in the
      last eleven bytes below 2^31 pass the sign test in malloc and then
      collapse to a minimum-sized chunk. */
  lemma Request2SizeHoldsRequest(req: nat)
    requires req < TWO31
    ensures Request2Size(req) >= req + WORD <==> req < TWO31 - WORD - ALIGNMENT + 1
    ensures req < TWO31 - WORD - ALIGNMENT + 1 ==>
              MINSIZE <= Request2Size(req) && (Request2Size(req) < req + WORD + ALIGNMENT || Request2Size(req) == MINSIZE)
  {
    if req >= TWO31 - WORD - ALIGNMENT + 1 {
      assert AsLong(req + 11) < 0;
    }
  }

  lemma Request2SizeCollapses()
    ensures Request2Size(0x7FFF_FFF5) == MINSIZE
  {
  }

  lemma Request2SizeMonotone(a: nat, b: nat)
    requires a <= b < TWO31 - WORD - ALIGNMENT + 1
    ensures Request2Size(a) <= Request2Size(b)
  {
    RequestIs(a);
    RequestIs(b);
    hide Request2Size;
  }

  lemma RequestIs(a: nat)
    requires a < TWO31 - WORD - ALIGNMENT + 1
    ensures Request2Size(a) == if a + 11 < MINSIZE + ALIGNMENT - 1 then MINSIZE else (a + 11) / 8 * 8
  {
    AsLongIs(a + 11);
  }

  // ---- alignment ----

  ghost predicate IsPower2(n: nat)
  {
    n == 1 || (n > 1 && n % 2 == 0 && IsPower2(n / 2))
  }

  lemma Power2Facts(n: nat)
    requires IsPower2(n)
    ensures n > 0 && (n > 8 ==> n % 16 == 0) && (n <= 8 ==> n == 1 || n == 2 || n == 4 || n == 8)
  {
    if n > 8 {
      assert IsPower2(n / 2) && IsPower2(n / 2 / 2) && IsPower2(n / 2 / 2 / 2);
    }
  }

  lemma Power2Divides(r: int, n: nat)
    requires r % 8 == 0 && (n == 1 || n == 2 || n == 4 || n == 8)
    ensures r % n == 0
  {
  }

  /** (m + alignment - 1) & -alignment, for a power of two. */
  function AlignUp(m: int, alignment: nat): int
    requires alignment > 0
  {
    (m + alignment - 1) / alignment * alignment
  }

  lemma MulAtLeast(n: nat, k: int)
    requires k >= 1
    ensures n * k >= n
  {
  }

  lemma DivMod(x: int, n: nat)
    requires n > 0
    ensures x == n * (x / n) + x % n && 0 <= x % n < n
  {
  }

  lemma Remainder(x: int, n: nat, q: int, r: int)
    requires n > 0 && x == n * q + r && 0 <= r < n
    ensures x % n == r
  {
    DivMod(x, n);
    var d := q - x / n;
    assert n * d == x % n - r by { assert n * d == n * q - n * (x / n); }
    if d >= 1 { MulAtLeast(n, d); }
    if d <= -1 { MulAtLeast(n, -d); }
    assert d == 0;
  }

  lemma AlignUpIs(m: int, n: nat, q: int)
    requires n > 0 && q == (m + n - 1) / n
    ensures m <= n * q < m + n && (n * q) % n == 0 && (n * q + n) % n == 0
  {
    DivMod(m + n - 1, n);
    Remainder(n * q, n, q, 0);
    Remainder(n * q + n, n, q + 1, 0);
  }

  lemma By16(n: nat, q: int)
    requires n % 16 == 0
    ensures n * q % 8 == 0
  {
    var j := n / 16;
    assert n * q == 8 * (2 * (j * q));
  }

  predicate IsMultiple(x: int, n: nat)
    requires n > 0
  {
    x % n == 0
  }

  lemma AlignUpFacts(m: int, alignment: nat)
    requires alignment > 0 && alignment % 16 == 0 && m % 8 == 0
    ensures var r := AlignUp(m, alignment);
            && m <= r < m + alignment && IsMultiple(r, alignment) && IsMultiple(r + alignment, alignment) && r % 8 == 0
            && (!IsMultiple(m, alignment) ==> r != m)
  {
    var q := (m + alignment - 1) / alignment;
    AlignUpIs(m, alignment, q);
    By16(alignment, q);
    assert AlignUp(m, alignment) == alignment * q;
  }

  /** Where memalign puts the aligned chunk inside the one at m - 8: a leader must be a chunk itself. */
  function AlignedSpot(m: int, alignment: nat): (spot: int)
    requires alignment > 0
  {
    if IsMultiple(m, alignment) then m - 8
    else if AlignUp(m, alignment) - m < MINSIZE then AlignUp(m, alignment) - 8 + alignment
    else AlignUp(m, alignment) - 8
  }

  lemma AlignedSpotFits(m: int, alignment: nat)
    requires alignment > 0 && alignment % 16 == 0 && m % 8 == 0
    ensures var spot := AlignedSpot(m, alignment);
            && IsMultiple(spot + 8, alignment) && spot % 8 == 0
            && (spot == m - 8 || MINSIZE <= spot - (m - 8) <= alignment + 8)
  {
    AlignUpFacts(m, alignment);
    if AlignUp(m, alignment) != m { SpotFits(m, alignment, AlignUp(m, alignment)); }
    SpotAligned(m, alignment, AlignUp(m, alignment));
    hide AlignUp, IsMultiple;
  }

  lemma SpotFits(m: int, n: int, r: int)
    requires m % 8 == 0 && r % 8 == 0 && m < r < m + n
    ensures r - m < MINSIZE ==> MINSIZE <= r - m + n <= n + 8
    ensures r - m >= MINSIZE ==> r - m <= n + 8
  {
  }

  lemma SpotAligned(m: int, n: int, r: int)
    requires m % 8 == 0 && r % 8 == 0 && n % 16 == 0
    ensures (m - 8) % 8 == 0 && (r - 8) % 8 == 0 && (r - 8 + n) % 8 == 0
  {
  }

  /** Requests that malloc refuses, or pads to a size that holds them. */
  predicate PaddingFits(req: nat)
  {
    req < TWO31 - WORD - ALIGNMENT + 1 || TWO31 <= req < TWO32
  }

  lemma PaddingHolds(req: nat)
    requires PaddingFits(req) && AsLong(req) >= 0
    ensures Request2Size(req) >= req + WORD
  {
    Request2SizeHoldsRequest(req);
  }

  /** bin_index: the bin of a chunk of size sz. */
  function BinIndex(sz: int): int
  {
    if sz / 512 == 0 then sz / 8
    else if sz / 512 <= 4 then 56 + sz / 64
    else if sz / 512 <= 20 then 91 + sz / 512
    else if sz / 512 <= 84 then 110 + sz / 4096
    else if sz / 512 <= 340 then 119 + sz / 32768
    else if sz / 512 <= 1364 then 124 + sz / 262144
    else 126
  }

  /** Despite the uneven bin widths, larger chunks never go to lower bins. */
  lemma BinIndexMonotone(a: nat, b: nat)
    requires a <= b
    ensures BinIndex(a) <= BinIndex(b) <= 126
  {
  }

  /** The bins below 64 are exactly those of chunks under 512 bytes, one size each. */
  lemma SmallBinsHoldOneSize(sz: nat)
    requires sz % ALIGNMENT == 0
    ensures BinIndex(sz) < 64 <==> sz < 512
    ensures sz < 512 ==> sz == 8 * BinIndex(sz)
    ensures sz >= MINSIZE ==> BinIndex(sz) >= 2
  {
  }

  // ---- binblocks, a one-word bitmap over groups of four bins ----

  /** 1 << k */
  function Bit(k: nat): (b: bv32)
    requires k < 32
  {
    if k == 0 then 1 else Bit(k - 1) << 1
  }

  /** mark_binblock, clear_binblock and the `block & binblocks` test, on one mask. */
  function MarkMask(blocks: bv32, b: bv32): bv32 { blocks | b }

  function ClearMask(blocks: bv32, b: bv32): bv32 { blocks & !b }

  function AndMask(blocks: bv32, b: bv32): bv32 { blocks & b }

  /** block <<= 1 */
  function NextBlock(b: bv32): bv32 { b << 1 }

  predicate NoBlock(b: bv32) { b == 0 }

  /** block <= binblocks */
  predicate Within(blocks: bv32, b: bv32) { b <= blocks }

  predicate Hits(blocks: bv32, b: bv32) { AndMask(blocks, b) != 0 }

  ghost predicate PowerOfTwo(b: bv32) { b != 0 && b & (b - 1) == 0 }

  ghost predicate Marked(blocks: bv32, k: nat)
    requires k < 32
  {
    Hits(blocks, Bit(k))
  }

  lemma {:induction false} BitPowerOrZero(k: nat)
    requires k < 32
    ensures Bit(k) & (Bit(k) - 1) == 0
  {
    if k > 0 { BitPowerOrZero(k - 1); }
  }

  lemma BitTop()
    ensures Bit(31) == 0x8000_0000
  {
    assert Bit(5) == 0x20;
    assert Bit(10) == 0x400;
    assert Bit(15) == 0x8000;
    assert Bit(20) == 0x10_0000;
    assert Bit(25) == 0x200_0000;
    assert Bit(30) == 0x4000_0000;
  }

  lemma {:induction false} BitNonzero(k: nat)
    requires k < 32
    ensures Bit(k) != 0
    decreases 32 - k
  {
    if k < 31 {
      BitNonzero(k + 1);
      assert Bit(k + 1) == Bit(k) << 1;
    } else {
      BitTop();
    }
  }

  lemma BitIsPower(k: nat)
    requires k < 32
    ensures PowerOfTwo(Bit(k))
    ensures k < 31 ==> Bit(k) < 0x8000_0000 && Bit(k + 1) == Bit(k) << 1
    ensures k == 31 ==> Bit(k) == 0x8000_0000
  {
    BitPowerOrZero(k);
    BitNonzero(k);
    if k < 31 { BitNonzero(k + 1); } else { BitTop(); }
  }

  lemma {:induction false} BitIncreasing(k: nat, l: nat)
    requires k < l < 32
    ensures Bit(k) < Bit(l)
    decreases l
  {
    BitIsPower(l - 1);
    if k < l - 1 { BitIncreasing(k, l - 1); }
  }

  lemma {:induction false} BitsDistinct(k: nat, l: nat)
    requires k < 32 && l < 32 && k != l
    ensures !Hits(Bit(k), Bit(l))
  {
    BitIsPower(k);
    BitIsPower(l);
    if k < l { BitIncreasing(k, l); } else { BitIncreasing(l, k); }
    PowersDisjoint(Bit(k), Bit(l));
  }

  lemma PowersDisjoint(a: bv32, b: bv32)
    requires PowerOfTwo(a) && PowerOfTwo(b) && a != b
    ensures !Hits(a, b)
  {
  }

  lemma OrThenAnd(x: bv32, a: bv32, b: bv32)
    requires a & b == 0
    ensures (x | a) & b == x & b
  {
    assert (x | a) & b == (x & b) | (a & b);
  }

  lemma ClearThenAnd(x: bv32, a: bv32, b: bv32)
    requires a & b == 0
    ensures (x & !a) & b == x & b
  {
  }

  lemma MarkOther(x: bv32, a: bv32, b: bv32)
    requires AndMask(a, b) == 0
    ensures AndMask(MarkMask(x, a), b) == AndMask(x, b)
  {
    OrThenAnd(x, a, b);
  }

  lemma ClearOther(x: bv32, a: bv32, b: bv32)
    requires AndMask(a, b) == 0
    ensures AndMask(ClearMask(x, a), b) == AndMask(x, b)
  {
    ClearThenAnd(x, a, b);
  }

  lemma MaskSame(x: bv32, a: bv32)
    requires a != 0
    ensures Hits(MarkMask(x, a), a) && !Hits(ClearMask(x, a), a)
  {
  }

  /** Marking or clearing one group leaves the others' marks alone. */
  lemma {:induction false} MarkGroup(blocks: bv32, k: nat, l: nat)
    requires k < 32 && l < 32
    ensures Marked(MarkMask(blocks, Bit(k)), l) <==> Marked(blocks, l) || k == l
    ensures Marked(ClearMask(blocks, Bit(k)), l) <==> Marked(blocks, l) && k != l
  {
    hide AndMask, MarkMask, ClearMask, Bit;
    if k == l {
      BitNonzero(k);
      MaskSame(blocks, Bit(k));
    } else {
      BitsDistinct(k, l);
      MarkOther(blocks, Bit(k), Bit(l));
      ClearOther(blocks, Bit(k), Bit(l));
    }
  }

  lemma HigherBit(blocks: bv32, b: bv32)
    requires PowerOfTwo(b) && b <= blocks && !Hits(blocks, b)
    ensures b != 0x8000_0000 && b << 1 <= blocks
  {
  }

  lemma NoHigherBit(blocks: bv32, b: bv32, c: bv32)
    requires PowerOfTwo(c) && blocks < b && b <= c
    ensures !Hits(blocks, c)
  {
  }

  lemma {:induction false} NoMarkAtOrAbove(blocks: bv32, k: nat, l: nat)
    requires k <= l < 32 && blocks < Bit(k)
    ensures !Marked(blocks, l)
  {
    BitIsPower(l);
    if k < l { BitIncreasing(k, l); }
    NoHigherBit(blocks, Bit(k), Bit(l));
  }

  lemma {:induction false} SomeMarkAtOrAbove(blocks: bv32, k: nat)
    requires k < 32 && Within(blocks, Bit(k))
    ensures exists l :: k <= l < 32 && Marked(blocks, l)
    decreases 32 - k
  {
    BitIsPower(k);
    if !Marked(blocks, k) {
      HigherBit(blocks, Bit(k));
      SomeMarkAtOrAbove(blocks, k + 1);
    }
  }

  lemma NotWithin(blocks: bv32, b: bv32)
    requires !Within(blocks, b)
    ensures blocks < b
  {
  }

  /** The word comparison `block <= binblocks` decides whether any group from k up is marked. */
  lemma BlockCompare(blocks: bv32, k: nat)
    requires k < 32
    ensures Within(blocks, Bit(k)) <==> exists l :: k <= l < 32 && Marked(blocks, l)
  {
    hide AndMask, Bit, Within, Marked;
    if Within(blocks, Bit(k)) {
      SomeMarkAtOrAbove(blocks, k);
    } else {
      NotWithin(blocks, Bit(k));
      forall l | k <= l < 32 ensures !Marked(blocks, l) { NoMarkAtOrAbove(blocks, k, l); }
    }
  }

  /** The shifted bit is the next group's, and zero after the last group's. */
  lemma NextBlockBit(k: nat)
    requires k < 32
    ensures k < 31 ==> NextBlock(Bit(k)) == Bit(k + 1) && !NoBlock(NextBlock(Bit(k)))
    ensures k == 31 ==> NoBlock(NextBlock(Bit(k)))
  {
    BitIsPower(k);
    if k < 31 { BitNonzero(k + 1); }
    hide PowerOfTwo, Bit;
  }

  /** Below the word's highest mark, the next group's bit is still no larger than the word. */
  lemma {:induction false} BitBelowMark(blocks: bv32, k: nat)
    requires k < 32 && Within(blocks, Bit(k)) && !Marked(blocks, k)
    ensures k < 31 && NextBlock(Bit(k)) == Bit(k + 1) && Within(blocks, Bit(k + 1))
  {
    hide AndMask, Bit, NextBlock;
    NextBlockBit(k);
    SomeMarkAtOrAbove(blocks, k);
    hide PowerOfTwo, Hits;
    var l :| k <= l < 32 && Marked(blocks, l);
    BlockCompare(blocks, k + 1);
  }

  lemma PagesAreAligned(y: int)
    ensures (y - y % PAGE) % ALIGNMENT == 0
  {
    assert y - y % PAGE == ALIGNMENT * (PAGE / ALIGNMENT * (y / PAGE));
  }

  // ---- comparisons and differences in 32 bits ----

  lemma AsLongIs(x: int)
    requires -TWO31 <= x < TWO31
    ensures AsLong(x) == x
  {
  }

  /** Where the segment starts that the board's memory is in; addresses are counted from there. */
  const SEGMENT := 0x8000_0000

  /** The board's sbrk refuses a new break outside its memory, in addresses of 32 bits. */
  predicate SbrkRefuses(start: int, limit: int, brk: int, n: int)
  {
    var newBrk := (SEGMENT + brk + n) % TWO32;
    newBrk < SEGMENT + start || newBrk > SEGMENT + limit
  }

  /** Whatever malloc_extend_top can ask for, and increments that are negative as a ptrdiff_t too, it
      refuses exactly what lies beyond the limit. */
  lemma SbrkAgrees(start: int, limit: int, brk: int, pad: int, n: int)
    requires 0 <= start <= brk <= limit && 0 <= pad && limit + pad + 2 * PAGE <= TWO31
    requires start <= brk + n && n < TWO31 + pad + MINSIZE + PAGE
    ensures SbrkRefuses(start, limit, brk, n) <==> brk + n > limit
  {
    var sum := SEGMENT + brk + n;
    assert sum % TWO32 == if sum < TWO32 then sum else sum - TWO32;
  }

  /** realloc's test that a chunk can grow over the front of top: (long)room >= (long)(nb + MINSIZE). */
  predicate RoomPasses(room: int, nb: int) { AsLong(room) >= AsLong(nb + MINSIZE) }

  /** The test says what it is for exactly when nb + MINSIZE is a positive long. */
  lemma RoomPassesExactly(room: int, nb: int)
    requires 0 <= room < TWO31 && MINSIZE <= nb < TWO31
    ensures (RoomPasses(room, nb) <==> room >= nb + MINSIZE) <==> nb + MINSIZE < TWO31
    ensures nb + MINSIZE >= TWO31 ==> RoomPasses(room, nb)
  {
    AsLongIs(room);
  }

  lemma RoomTest(room: int, nb: int)
    requires 0 <= room < TWO31 && MINSIZE <= nb < TWO31
    ensures AsLong(nb) == nb && AsLong(room) == room
    ensures nb + MINSIZE < TWO31 ==> (RoomPasses(room, nb) <==> room >= nb + MINSIZE)
  {
    AsLongIs(nb);
    AsLongIs(room);
    RoomPassesExactly(room, nb);
    hide *;
  }

  /** Sixteen request sizes make it wrap. */
  lemma RoomWraps(bytes: nat)
    requires bytes < TWO31
    ensures Request2Size(bytes) + MINSIZE < TWO31 <==> !(0x7FFF_FFE5 <= bytes < 0x7FFF_FFF5)
    ensures Request2Size(bytes) < TWO31
  {
    if bytes >= 0x7FFF_FFF5 { AsLongIs(bytes + 11 - TWO32); } else { AsLongIs(bytes + 11); }
  }

  /** Requests that realloc can be asked for in any state. */
  predicate RoomFits(bytes: nat) { bytes < TWO32 && PaddingFits(bytes) && !(0x7FFF_FFE5 <= bytes < 0x7FFF_FFF5) }

  /** What memalign asks malloc for; the sum wraps around in 32 bits. */
  function SpotRequest(nb: int, alignment: int): nat { (nb + alignment + MINSIZE) % TWO32 }

  /** malloc will refuse the request or give room for an aligned spot. */
  predicate SpotAvailable(nb: int, alignment: int)
  {
    AsLong(SpotRequest(nb, alignment)) < 0 || nb + alignment + MINSIZE < TWO31 - WORD - ALIGNMENT + 1
  }

  lemma SpotExactly(nb: int, alignment: int)
    requires MINSIZE <= nb < TWO31 && 0 < alignment < TWO32
    ensures SpotAvailable(nb, alignment) <==>
              AsLong(SpotRequest(nb, alignment)) < 0 || Request2Size(SpotRequest(nb, alignment)) >= nb + alignment + MINSIZE + WORD
  {
    var sum, req := nb + alignment + MINSIZE, SpotRequest(nb, alignment);
    if sum < TWO32 {
      assert req == sum;
      if req < TWO31 { Request2SizeHoldsRequest(req); }
    } else {
      assert req == sum - TWO32;
      if req < TWO31 { assert Request2Size(req) <= req + 16; }
    }
  }

  /** memalign(16, 0x7FFFFFD4) is given the smallest chunk; if that is not aligned, the leader that
      is given back is all of it or more. */
  lemma SpotCollapses(m: int)
    requires m % 8 == 0
    ensures Request2Size(0x7FFF_FFD4) == 0x7FFF_FFD8 && Request2Size(SpotRequest(0x7FFF_FFD8, 16)) == MINSIZE
    ensures m % 16 != 0 ==> AlignedSpot(m, 16) - (m - 8) >= MINSIZE
  {
    AlignedSpotFits(m, 16);
  }

  /** A chunk of the size that memalign asks for has room for the leader, and for nb bytes behind it. */
  lemma SpotLead(m: int, alignment: nat, nb: int, size: int)
    requires alignment > 0 && alignment % 16 == 0 && m % 8 == 0 && MINSIZE <= nb && nb + alignment + MINSIZE + WORD <= size
    ensures var spot := AlignedSpot(m, alignment);
            var lead := spot - (m - 8);
            && IsMultiple(spot + 8, alignment) && (spot + 8) % ALIGNMENT == 0
            && (lead == 0 || (lead % 8 == 0 && MINSIZE <= lead && lead + MINSIZE <= size)) && nb <= size - lead
  {
    AlignedSpotFits(m, alignment);
    hide *;
    var spot := AlignedSpot(m, alignment);
    Eights(spot, m);
    LeadFits(alignment, nb, size, spot - (m - 8));
  }

  lemma Eights(spot: int, m: int)
    requires spot % 8 == 0 && m % 8 == 0
    ensures (spot - (m - 8)) % 8 == 0 && (spot + 8) % ALIGNMENT == 0
  {
  }

  lemma LeadFits(alignment: nat, nb: int, size: int, lead: int)
    requires lead == 0 || MINSIZE <= lead <= alignment + 8
    requires MINSIZE <= nb && nb + alignment + MINSIZE + WORD <= size
    ensures (lead == 0 || (MINSIZE <= lead && lead + MINSIZE <= size)) && nb <= size - lead
  {
  }

  /** malloc_trim: whole pages beyond pad and a minimum chunk; the difference and the pages are
      unsigned, the result is read as a long. */
  function TrimExtra(topSize: int, pad: int): int
  {
    AsLong(((topSize - pad - MINSIZE + (PAGE - 1)) % TWO32 / PAGE - 1) * PAGE)
  }

  /** The same without a limit on numbers. */
  function IntendedExtra(topSize: int, pad: int): (extra: int)
    ensures extra % PAGE == 0 && pad + MINSIZE < topSize - extra <= pad + MINSIZE + PAGE
  {
    ((topSize - pad - MINSIZE + (PAGE - 1)) / PAGE - 1) * PAGE
  }

  /** A pad so large that more pages seem to be spare than top has. */
  predicate TrimWraps(topSize: int, pad: int)
  {
    topSize + TWO31 <= pad + MINSIZE && pad + MINSIZE + PAGE < topSize + TWO32
  }

  lemma TrimExtraIs(topSize: int, pad: int)
    requires 0 <= topSize < TWO31 && 0 <= pad < TWO32
    ensures TrimExtra(topSize, pad) == AsLong(IntendedExtra(topSize, pad))
  {
    var x, q := topSize - pad - MINSIZE + (PAGE - 1), TWO32 / PAGE;
    if x < 0 {
      assert x % TWO32 == x + TWO32 || x + TWO32 < 0;
    }
  }

  /** malloc_trim decides as it is meant to exactly when the pad does not wrap; if it does, it takes
      all of top and what lies before it, but for the pads of the last page. */
  lemma TrimExactly(topSize: int, pad: int)
    requires 0 <= topSize < TWO31 && 0 <= pad < TWO32
    ensures (TrimExtra(topSize, pad) >= PAGE <==> IntendedExtra(topSize, pad) >= PAGE) <==> !TrimWraps(topSize, pad)
    ensures !TrimWraps(topSize, pad) && TrimExtra(topSize, pad) >= PAGE ==> TrimExtra(topSize, pad) == IntendedExtra(topSize, pad)
    ensures TrimWraps(topSize, pad) && pad <= TWO32 - MINSIZE - PAGE ==> TrimExtra(topSize, pad) >= topSize
  {
    TrimExtraIs(topSize, pad);
  }

  lemma TrimLeaves(topSize: int, pad: int)
    requires 0 <= topSize < TWO31 && 0 <= pad < TWO32 && !TrimWraps(topSize, pad)
    ensures var extra := TrimExtra(topSize, pad);
            && (extra >= PAGE <==> topSize > pad + MINSIZE + PAGE)
            && (extra >= PAGE ==> extra % PAGE == 0 && pad + MINSIZE < topSize - extra <= pad + MINSIZE + PAGE && (topSize % 8 == 0 ==> (topSize - extra) % 8 == 0))
  {
    TrimExactly(topSize, pad);
    hide TrimExtra, TrimWraps, IntendedExtra;
  }

  lemma TrimTakesMore()
    ensures TrimExtra(0x8000, 0xFFFF_0000) == 0x1_7000 && IntendedExtra(0x8000, 0xFFFF_0000) < 0
  {
  }
}
