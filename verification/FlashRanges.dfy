/** From an address range to the flash sectors to erase, and writing across banks. */
module FlashRanges {

  /** start holds the sectors' first addresses; unknown banks have no usable data. */
  datatype Bank = Bank(known: bool, start: seq<int>, size: int, protect: seq<bool>)

  const ADDRESSES: int := 0x1_0000_0000

  function BankEnd(b: Bank): int
    requires |b.start| > 0
  {
    b.start[0] + b.size - 1
  }

  /** The last address of a sector. */
  function SectorEnd(b: Bank, s: nat): int
    requires s < |b.start|
  {
    if s == |b.start| - 1 then BankEnd(b) else b.start[s + 1] - 1
  }

  ghost predicate BankOk(b: Bank)
  {
    && |b.start| == |b.protect| > 0 && b.start[0] >= 0 && b.size < ADDRESSES && BankEnd(b) < ADDRESSES
    && b.start[|b.start| - 1] <= BankEnd(b)
    && forall s, t :: 0 <= s < t < |b.start| ==> b.start[s] < b.start[t]
  }

  /** Known banks are in order of their addresses and do not overlap or wrap. */
  ghost predicate Ascending(banks: seq<Bank>)
  {
    && (forall i :: 0 <= i < |banks| && banks[i].known ==> BankOk(banks[i]))
    && (forall i, j :: 0 <= i < j < |banks| && banks[i].known && banks[j].known ==> BankEnd(banks[i]) < banks[j].start[0])
  }

  ghost predicate InSector(b: Bank, s: int, x: int)
  {
    0 <= s < |b.start| && b.start[s] <= x <= SectorEnd(b, s)
  }

  /** Bank i is known and x is in its sector s. */
  ghost predicate Holds(banks: seq<Bank>, i: int, s: int, x: int)
  {
    0 <= i < |banks| && banks[i].known && InSector(banks[i], s, x)
  }

  lemma SectorsInOrder(b: Bank, s: nat, t: nat)
    requires BankOk(b) && s < t < |b.start|
    ensures b.start[0] <= b.start[s] <= SectorEnd(b, s) < b.start[t] <= SectorEnd(b, t) <= BankEnd(b)
  {
  }

  lemma SectorRange(b: Bank, s: nat)
    requires BankOk(b) && s < |b.start|
    ensures b.start[0] <= b.start[s] <= SectorEnd(b, s) <= BankEnd(b)
  {
  }

  /** Every address of a bank is in one of its sectors. */
  lemma {:induction false} SomeSector(b: Bank, x: int, n: nat) returns (s: nat)
    requires BankOk(b) && n < |b.start| && b.start[0] <= x <= SectorEnd(b, n)
    ensures s <= n && InSector(b, s, x)
    decreases n
  {
    if x >= b.start[n] {
      s := n;
    } else {
      s := SomeSector(b, x, n - 1);
    }
  }

  /** No address is in two sectors. */
  lemma OneSector(banks: seq<Bank>, i: int, s: int, j: int, t: int, x: int)
    requires Ascending(banks) && Holds(banks, i, s, x) && Holds(banks, j, t, x)
    ensures i == j && s == t
  {
    SectorRange(banks[i], s);
    SectorRange(banks[j], t);
    if i == j && s < t { SectorsInOrder(banks[i], s, t); }
    if i == j && t < s { SectorsInOrder(banks[i], t, s); }
  }

  // ---- what is selected ----

  /** The sectors first[i] to last[i] of each bank i; -1 for none. */
  ghost predicate Chosen(first: seq<int>, last: seq<int>, i: int, s: int)
  {
    0 <= i < |first| == |last| && 0 <= first[i] <= s <= last[i]
  }

  function Total(first: seq<int>, last: seq<int>): int
    requires |first| == |last|
  {
    if first == [] then 0
    else
      var n := |first| - 1;
      Total(first[..n], last[..n]) + if first[n] >= 0 then last[n] - first[n] + 1 else 0
  }

  /** Sector s of bank i lies inside the addresses from lo to hi - 1. */
  ghost predicate Within(banks: seq<Bank>, i: int, s: int, lo: int, hi: int)
  {
    0 <= i < |banks| && banks[i].known && 0 <= s < |banks[i].start| && lo <= banks[i].start[s] && SectorEnd(banks[i], s) < hi
  }

  /** The chosen sectors together are exactly the addresses from lo to hi - 1. */
  ghost predicate Covers(banks: seq<Bank>, first: seq<int>, last: seq<int>, lo: int, hi: int)
  {
    && |first| == |last| == |banks|
    && (forall i :: 0 <= i < |first| && first[i] >= 0 ==> first[i] <= last[i])
    && (forall i, s :: Chosen(first, last, i, s) ==> Within(banks, i, s, lo, hi))
    && (forall x {:trigger InChosen(banks, first, last, x)} :: lo <= x < hi ==> InChosen(banks, first, last, x))
  }

  ghost predicate InChosen(banks: seq<Bank>, first: seq<int>, last: seq<int>, x: int)
  {
    exists i, s :: Chosen(first, last, i, s) && Holds(banks, i, s, x)
  }

  ghost predicate StartsSector(banks: seq<Bank>, x: int)
  {
    exists i, s :: Holds(banks, i, s, x) && banks[i].start[s] == x
  }

  ghost predicate EndsSector(banks: seq<Bank>, x: int)
  {
    exists i, s :: Holds(banks, i, s, x) && SectorEnd(banks[i], s) == x
  }

  /** Some known bank holds x. */
  ghost predicate InFlash(banks: seq<Bank>, x: int)
  {
    exists i, s :: Holds(banks, i, s, x)
  }

  /** The range starts and ends with sectors and has no address outside the flash. */
  ghost predicate Aligned(banks: seq<Bank>, lo: int, hi: int)
  {
    lo <= hi && StartsSector(banks, lo) && EndsSector(banks, hi) && forall x :: lo <= x <= hi ==> InFlash(banks, x)
  }

  /** The range starts with a sector and its flash is the addresses up to the end g of a sector. */
  ghost predicate Reaching(banks: seq<Bank>, lo: int, hi: int, g: int)
  {
    Aligned(banks, lo, g) && g <= hi && forall x :: g < x <= hi ==> !InFlash(banks, x)
  }

  /** The range starts with a sector, but its end lies behind the end of the flash. */
  ghost predicate PastEnd(banks: seq<Bank>, lo: int, hi: int) { exists g :: g < hi && Reaching(banks, lo, hi, g) }

  ghost function Goal(banks: seq<Bank>, lo: int, hi: int): int
  {
    if exists g :: Reaching(banks, lo, hi, g) then var g :| Reaching(banks, lo, hi, g); g else hi
  }

  lemma GoalIs(banks: seq<Bank>, lo: int, hi: int, g: int)
    requires Reaching(banks, lo, hi, g)
    ensures Goal(banks, lo, hi) == g
  {
    var h := Goal(banks, lo, hi);
    assert Reaching(banks, lo, hi, h);
    assert InFlash(banks, g) && InFlash(banks, h);
  }

  lemma AlignedReaches(banks: seq<Bank>, lo: int, hi: int)
    ensures Aligned(banks, lo, hi) <==> Reaching(banks, lo, hi, hi)
  {
  }

  // ---- flash_fill_sect_ranges ----

  ghost predicate HasStart(b: Bank, x: int) { exists s :: 0 <= s < |b.start| && b.start[s] == x }

  ghost predicate HasEnd(b: Bank, x: int) { exists s :: 0 <= s < |b.start| && SectorEnd(b, s) == x }

  /** The sectors of a bank that start with first and that end with last, when there are any. */
  method ScanSectors(b: Bank, first: int, last: int) returns (f: int, l: int)
    requires BankOk(b) && first <= last
    ensures if HasStart(b, first) then 0 <= f < |b.start| && b.start[f] == first else f == -1
    ensures if HasEnd(b, last) then 0 <= l < |b.start| && SectorEnd(b, l) == last else l == -1
  {
    f, l := -1, -1;
    for sect := 0 to |b.start|
      invariant if exists s :: 0 <= s < sect && b.start[s] == first then 0 <= f < sect && b.start[f] == first else f == -1
      invariant if exists s :: 0 <= s < sect && SectorEnd(b, s) == last then 0 <= l < sect && SectorEnd(b, l) == last else l == -1
    {
      SectorRange(b, sect);
      var end := SectorEnd(b, sect);
      if first <= end && last >= b.start[sect] {
        if first == b.start[sect] { f := sect; }
        if last == end { l := sect; }
      }
    }
  }

  lemma {:induction false} TotalUpdate(first: seq<int>, last: seq<int>, i: nat, x: int, y: int)
    requires i < |first| == |last| && first[i] == -1 && x >= 0
    ensures Total(first[i := x], last[i := y]) == Total(first, last) + y - x + 1
    decreases |first|
  {
    var n := |first| - 1;
    if i < n {
      TotalUpdate(first[..n], last[..n], i, x, y);
      assert first[i := x][..n] == first[..n][i := x] && last[i := y][..n] == last[..n][i := y];
    } else {
      assert first[i := x][..n] == first[..n] && last[i := y][..n] == last[..n];
    }
  }

  lemma SectorBetween(b: Bank, x: nat, s: nat, y: nat)
    requires BankOk(b) && x <= s <= y < |b.start|
    ensures b.start[x] <= b.start[s] <= SectorEnd(b, s) <= SectorEnd(b, y)
  {
    SectorRange(b, s);
    if x < s { SectorsInOrder(b, x, s); }
    if s < y { SectorsInOrder(b, s, y); }
  }

  lemma SectorFor(b: Bank, x: nat, y: nat, a: int) returns (s: nat)
    requires BankOk(b) && x <= y < |b.start| && b.start[x] <= a <= SectorEnd(b, y)
    ensures x <= s <= y && InSector(b, s, a)
  {
    SectorRange(b, x);
    s := SomeSector(b, a, y);
    if s < x { SectorsInOrder(b, s, x); }
  }

  /** Sectors x to y of bank i, which start where what is covered ends. */
  lemma CoversMore(banks: seq<Bank>, first: seq<int>, last: seq<int>, lo: int, hi: int, i: nat, x: nat, y: nat)
    requires Ascending(banks) && Covers(banks, first, last, lo, hi) && lo <= hi && i < |banks| && banks[i].known
    requires first[i] == -1 && x <= y < |banks[i].start| && banks[i].start[x] == hi
    ensures Covers(banks, first[i := x], last[i := y], lo, SectorEnd(banks[i], y) + 1)
  {
    var b, f, l := banks[i], first[i := x], last[i := y];
    assert BankOk(b);
    hide Ascending, BankOk, SectorEnd, InChosen, Within;
    SectorBetween(b, x, x, y);
    var top := SectorEnd(b, y) + 1;
    forall j, s | Chosen(f, l, j, s) ensures Within(banks, j, s, lo, top)
    {
      if j == i {
        SectorBetween(b, x, s, y);
        IsWithin(banks, i, s, lo, top);
      } else {
        assert Chosen(first, last, j, s);
        WithinMore(banks, j, s, lo, hi, top);
      }
    }
    forall a {:trigger InChosen(banks, f, l, a)} | lo <= a < top ensures InChosen(banks, f, l, a)
    {
      if a < hi {
        ChosenStays(banks, first, last, i, x, y, a);
      } else {
        var s := SectorFor(b, x, y, a);
        IsChosen(banks, f, l, i, s, a);
      }
    }
  }

  lemma IsWithin(banks: seq<Bank>, i: int, s: int, lo: int, hi: int)
    requires 0 <= i < |banks| && banks[i].known && 0 <= s < |banks[i].start| && lo <= banks[i].start[s] && SectorEnd(banks[i], s) < hi
    ensures Within(banks, i, s, lo, hi)
  {
  }

  lemma WithinMore(banks: seq<Bank>, i: int, s: int, lo: int, hi: int, top: int)
    requires Within(banks, i, s, lo, hi) && hi <= top
    ensures Within(banks, i, s, lo, top)
  {
  }

  lemma IsChosen(banks: seq<Bank>, first: seq<int>, last: seq<int>, i: int, s: int, x: int)
    requires Chosen(first, last, i, s) && Holds(banks, i, s, x)
    ensures InChosen(banks, first, last, x)
  {
  }

  lemma ChosenStays(banks: seq<Bank>, first: seq<int>, last: seq<int>, i: nat, x: nat, y: nat, a: int)
    requires i < |first| == |last| && first[i] == -1 && InChosen(banks, first, last, a)
    ensures InChosen(banks, first[i := x], last[i := y], a)
  {
    hide Holds;
    var j, s :| Chosen(first, last, j, s) && Holds(banks, j, s, a);
    assert Chosen(first[i := x], last[i := y], j, s);
  }

  /** No known bank before n has a sector that starts at x. */
  ghost predicate NoStart(banks: seq<Bank>, n: int, x: int)
  {
    forall i, s :: 0 <= i < n && i < |banks| && banks[i].known && 0 <= s < |banks[i].start| ==> banks[i].start[s] != x
  }

  /** Every known bank before n ends before x. */
  ghost predicate Behind(banks: seq<Bank>, n: int, x: int)
  {
    forall i :: 0 <= i < n && i < |banks| && banks[i].known && |banks[i].start| > 0 ==> BankEnd(banks[i]) < x
  }

  lemma SelectedMoves(banks: seq<Bank>, i: nat, l: nat, cur: int, last: int)
    requires Ascending(banks) && i < |banks| && banks[i].known && l < |banks[i].start|
    requires SectorEnd(banks[i], l) == last || (l == |banks[i].start| - 1 && last > BankEnd(banks[i]))
    requires cur == SectorEnd(banks[i], l) + 1
    ensures cur <= last + 1 && (cur <= last ==> NoStart(banks, i + 1, cur) && Behind(banks, i + 1, cur))
  {
    SectorRange(banks[i], l);
    if cur <= last {
      forall j, s | 0 <= j < i + 1 && banks[j].known && 0 <= s < |banks[j].start| ensures banks[j].start[s] != cur && BankEnd(banks[j]) < cur
      {
        SectorRange(banks[j], s);
      }
    }
  }

  /** Where the next sector to take may start: at the range's first address, or behind a bank. */
  ghost predicate Joint(banks: seq<Bank>, n: int, lo: int, cur: int)
  {
    cur == lo || exists p :: 0 <= p < n && p < |banks| && banks[p].known && |banks[p].start| > 0 && BankEnd(banks[p]) == cur - 1
  }

  lemma JointStarts(banks: seq<Bank>, lo: int, hi: int, cur: int, n: nat, j: int, s: int)
    requires Ascending(banks) && Aligned(banks, lo, hi) && n <= |banks|
    requires Behind(banks, n, cur) && Joint(banks, n, lo, cur) && Holds(banks, j, s, cur)
    ensures j >= n && banks[j].start[s] == cur
  {
    SectorRange(banks[j], s);
    if cur == lo {
      var j0, s0 :| Holds(banks, j0, s0, lo) && banks[j0].start[s0] == lo;
      OneSector(banks, j, s, j0, s0, cur);
    } else {
      var p :| 0 <= p < n && banks[p].known && BankEnd(banks[p]) == cur - 1;
    }
  }

  lemma HiEnds(banks: seq<Bank>, lo: int, hi: int, i: nat)
    requires Ascending(banks) && Aligned(banks, lo, hi) && i < |banks| && banks[i].known && banks[i].start[0] <= hi
    ensures hi > BankEnd(banks[i]) || HasEnd(banks[i], hi)
  {
    var e, t :| Holds(banks, e, t, hi) && SectorEnd(banks[e], t) == hi;
    SectorRange(banks[e], t);
  }

  /** In an aligned range, with everything before bank i left behind: either the bank holds the
      next sector to take and can end the range or lies in it, or the bank lies behind as well. */
  lemma AlignedStep(banks: seq<Bank>, lo: int, hi: int, cur: int, i: nat)
    requires Ascending(banks) && Aligned(banks, lo, hi) && lo <= cur <= hi && i < |banks| && banks[i].known
    requires Behind(banks, i, cur) && Joint(banks, i, lo, cur)
    ensures HasStart(banks[i], cur) || BankEnd(banks[i]) < cur
    ensures hi > BankEnd(banks[i]) || HasEnd(banks[i], hi)
  {
    assert InFlash(banks, cur);
    var j, s :| Holds(banks, j, s, cur);
    JointStarts(banks, lo, hi, cur, i, j, s);
    hide Aligned, Behind, Joint;
    SectorRange(banks[j], s);
    SectorRange(banks[i], 0);
    HiEnds(banks, lo, hi, i);
  }

  /** The part of flash_fill_sect_ranges that deals with one known bank. */
  method SelectInBank(b: Bank, cur: int, last: int) returns (ok: bool, f: int, l: int)
    requires BankOk(b) && cur <= last
    ensures ok && f < 0 ==> f == l == -1 && !HasStart(b, cur)
    ensures ok && f >= 0 ==> f <= l < |b.start| && b.start[f] == cur && (SectorEnd(b, l) == last || (l == |b.start| - 1 && last > BankEnd(b)))
    ensures BankEnd(b) < cur ==> ok && f < 0
    ensures HasStart(b, cur) && (last > BankEnd(b) || HasEnd(b, last)) ==> ok && f >= 0
    ensures !HasStart(b, cur) && !(b.start[0] <= cur < BankEnd(b)) && !HasEnd(b, last) ==> ok && f < 0
  {
    f, l := ScanSectors(b, cur, last);
    if f >= 0 {
      if l < 0 {
        if last > BankEnd(b) {
          l := |b.start| - 1;
        } else {
          return false, f, l;
        }
      }
      if l < f {
        SectorsInOrder(b, l, f);
        return false, f, l;
      }
    } else if b.start[0] <= cur < BankEnd(b) {
      return false, f, l;
    } else if l >= 0 {
      SectorRange(b, l);
      return false, f, l;
    }
    if f >= 0 { SectorRange(b, f); }
    ok := true;
  }

  /** Between banks: what has been selected, and how far an aligned range has got. */
  ghost predicate Progress(banks: seq<Bank>, first: seq<int>, last: seq<int>, n: int, lo: int, hi: int, goal: int, cur: int, count: int)
  {
    && |first| == |last| == |banks| && 0 <= n <= |banks| && lo <= cur && (lo <= hi ==> cur <= hi + 1)
    && (forall i :: n <= i < |banks| ==> first[i] == last[i] == -1)
    && Covers(banks, first, last, lo, cur) && count == Total(first, last)
    && (cur <= hi ==> NoStart(banks, n, cur))
    && (Reaching(banks, lo, hi, goal) && cur <= goal ==> Behind(banks, n, cur) && Joint(banks, n, lo, cur))
  }

  lemma ProgressTakes(banks: seq<Bank>, first: seq<int>, last: seq<int>, n: nat, lo: int, hi: int, goal: int, cur: int, count: int, f: nat, l: nat)
    requires Ascending(banks) && Progress(banks, first, last, n, lo, hi, goal, cur, count) && n < |banks| && banks[n].known && cur <= hi
    requires f <= l < |banks[n].start| && banks[n].start[f] == cur
    requires SectorEnd(banks[n], l) == hi || (l == |banks[n].start| - 1 && hi > BankEnd(banks[n]))
    ensures Progress(banks, first[n := f], last[n := l], n + 1, lo, hi, goal, SectorEnd(banks[n], l) + 1, count + l - f + 1)
  {
    hide Covers, NoStart, Behind, Aligned, InFlash, Total;
    CoversMore(banks, first, last, lo, cur, n, f, l);
    TotalUpdate(first, last, n, f, l);
    SelectedMoves(banks, n, l, SectorEnd(banks[n], l) + 1, hi);
    SectorRange(banks[n], f);
    if f < l { SectorsInOrder(banks[n], f, l); }
    SectorRange(banks[n], l);
  }

  lemma ProgressPasses(banks: seq<Bank>, first: seq<int>, last: seq<int>, n: nat, lo: int, hi: int, goal: int, cur: int, count: int)
    requires Ascending(banks) && Progress(banks, first, last, n, lo, hi, goal, cur, count) && n < |banks| && cur <= hi
    requires banks[n].known ==> !HasStart(banks[n], cur)
    ensures Progress(banks, first, last, n + 1, lo, hi, goal, cur, count)
  {
    if Reaching(banks, lo, hi, goal) && banks[n].known && cur <= goal { AlignedStep(banks, lo, goal, cur, n); }
    hide Covers, Reaching, Aligned, Total;
  }

  /** flash_fill_sect_ranges: unless it refuses the range, the sectors it selects are exactly the
      addresses from addrFirst to top - 1. It stops short of addrLast only where no sector starts,
      and neither that nor a refusal happens to an aligned range. A range that runs past the end of
      the flash is not refused either. */
  method FillSectRanges(banks: seq<Bank>, addrFirst: int, addrLast: int, sFirst: array<int>, sLast: array<int>)
      returns (rcode: int, count: int, ghost top: int)
    requires Ascending(banks) && sFirst.Length == sLast.Length == |banks| && sFirst != sLast
    requires 0 <= addrFirst < ADDRESSES && 0 <= addrLast < ADDRESSES
    modifies sFirst, sLast
    ensures rcode == 0 || rcode == 1
    ensures rcode == 0 ==> Covers(banks, sFirst[..], sLast[..], addrFirst, top) && count == Total(sFirst[..], sLast[..])
    ensures rcode == 0 && addrFirst <= addrLast ==> addrFirst <= top <= addrLast + 1 && (top <= addrLast ==> !StartsSector(banks, top))
    ensures Aligned(banks, addrFirst, addrLast) <==> addrFirst <= addrLast && rcode == 0 && top == addrLast + 1
    ensures forall g :: Reaching(banks, addrFirst, addrLast, g) ==> rcode == 0 && top == g + 1
    ensures addrFirst > addrLast ==> rcode == 0 && count == 0 && top == addrFirst
  {
    hide Progress, Aligned, Reaching, Covers, Total, StartsSector, HasStart, HasEnd, Goal;
    rcode, count := 0, 0;
    for bank := 0 to |banks|
      invariant forall i :: 0 <= i < bank ==> sFirst[i] == sLast[i] == -1
    {
      sFirst[bank], sLast[bank] := -1, -1;
    }
    var cur, bank := addrFirst, 0;
    // Behind a bank that ends with the address space cur is 0 again, but no known bank follows.
    ghost var at, n, goal := addrFirst, 0, Goal(banks, addrFirst, addrLast);
    GoalFacts(banks, addrFirst, addrLast);
    ProgressStarts(banks, sFirst[..], sLast[..], addrFirst, addrLast, goal);
    while bank < |banks| && cur <= addrLast
      invariant Progress(banks, sFirst[..], sLast[..], n, addrFirst, addrLast, goal, at, count) && n <= bank
      invariant (cur == at && n == bank) || (at == ADDRESSES && forall i :: n <= i < |banks| ==> !banks[i].known)
      invariant addrFirst > addrLast ==> cur == at == addrFirst && count == 0
    {
      var b := banks[bank];
      var ok, f, l := true, -1, -1;
      if b.known {
        ok, f, l := SelectInBank(b, cur, addrLast);
        ProgressGoesOn(banks, sFirst[..], sLast[..], bank, addrFirst, addrLast, goal, cur, count);
      }
      if !ok {
        ProgressRefuses(banks, sFirst[..], sLast[..], n, addrFirst, addrLast, goal, at, count);
        return 1, count, at;
      }
      if f >= 0 {
        ProgressTakes(banks, sFirst[..], sLast[..], bank, addrFirst, addrLast, goal, cur, count, f, l);
        ghost var was, were := sFirst[..], sLast[..];
        sFirst[bank], sLast[bank] := f, l;
        assert sFirst[..] == was[bank := f] && sLast[..] == were[bank := l];
        cur := if l == |b.start| - 1 then (BankEnd(b) + 1) % ADDRESSES else b.start[l + 1];
        count := count + l - f + 1;
        at, n := SectorEnd(b, l) + 1, bank + 1;
        NextAddress(banks, bank, l);
      } else if cur == at {
        ProgressPasses(banks, sFirst[..], sLast[..], bank, addrFirst, addrLast, goal, cur, count);
        n := n + 1;
      }
      bank := bank + 1;
    }
    top := at;
    ProgressEnds(banks, sFirst[..], sLast[..], n, addrFirst, addrLast, goal, at, count);
  }

  /** Behind sector l the next address is its end plus one, or all banks that follow are unknown. */
  lemma NextAddress(banks: seq<Bank>, i: nat, l: nat)
    requires Ascending(banks) && i < |banks| && banks[i].known && l < |banks[i].start|
    ensures var b := banks[i];
            var next := if l == |b.start| - 1 then (BankEnd(b) + 1) % ADDRESSES else b.start[l + 1];
            next == SectorEnd(b, l) + 1 || (SectorEnd(b, l) + 1 == ADDRESSES && forall j :: i < j < |banks| ==> !banks[j].known)
  {
    SectorRange(banks[i], l);
    forall j | i < j < |banks| && banks[j].known ensures BankEnd(banks[i]) < ADDRESSES - 1 { SectorRange(banks[j], 0); }
  }

  lemma GoalFacts(banks: seq<Bank>, lo: int, hi: int)
    ensures forall g :: Reaching(banks, lo, hi, g) ==> Goal(banks, lo, hi) == g
    ensures Aligned(banks, lo, hi) <==> Reaching(banks, lo, hi, hi)
  {
    forall g | Reaching(banks, lo, hi, g) ensures Goal(banks, lo, hi) == g { GoalIs(banks, lo, hi, g); }
    AlignedReaches(banks, lo, hi);
  }

  lemma CoversAligned(banks: seq<Bank>, first: seq<int>, last: seq<int>, lo: int, hi: int)
    requires Covers(banks, first, last, lo, hi + 1) && lo <= hi
    ensures Aligned(banks, lo, hi)
  {
    assert InChosen(banks, first, last, lo) && InChosen(banks, first, last, hi);
    forall x | lo <= x <= hi ensures InFlash(banks, x) { assert InChosen(banks, first, last, x); }
  }

  lemma ProgressStarts(banks: seq<Bank>, first: seq<int>, last: seq<int>, lo: int, hi: int, goal: int)
    requires |first| == |last| == |banks| && forall i :: 0 <= i < |first| ==> first[i] == last[i] == -1
    ensures Progress(banks, first, last, 0, lo, hi, goal, lo, 0)
  {
    NothingChosen(first, last);
  }

  /** Where the flash of a range ends at the goal, the next bank is taken or passed, not refused. */
  lemma ProgressGoesOn(banks: seq<Bank>, first: seq<int>, last: seq<int>, n: nat, lo: int, hi: int, goal: int, cur: int, count: int)
    requires Ascending(banks) && Progress(banks, first, last, n, lo, hi, goal, cur, count) && n < |banks| && banks[n].known && cur <= hi
    ensures Reaching(banks, lo, hi, goal) ==>
              || BankEnd(banks[n]) < cur
              || (HasStart(banks[n], cur) && (hi > BankEnd(banks[n]) || HasEnd(banks[n], hi)))
              || (!HasStart(banks[n], cur) && !(banks[n].start[0] <= cur < BankEnd(banks[n])) && !HasEnd(banks[n], hi))
  {
    if Reaching(banks, lo, hi, goal) {
      if cur <= goal {
        AlignedStep(banks, lo, goal, cur, n);
        if goal < hi && HasEnd(banks[n], goal) { EndOfFlash(banks, n, goal, hi); }
      } else {
        NotInBank(banks, n, cur);
        NotInBank(banks, n, hi);
      }
    }
  }

  /** A sector's end behind which there is no flash is the end of its bank. */
  lemma EndOfFlash(banks: seq<Bank>, i: nat, g: int, hi: int)
    requires Ascending(banks) && i < |banks| && banks[i].known && HasEnd(banks[i], g) && g < hi && forall x :: g < x <= hi ==> !InFlash(banks, x)
    ensures BankEnd(banks[i]) == g
  {
    var s :| 0 <= s < |banks[i].start| && SectorEnd(banks[i], s) == g;
    if s < |banks[i].start| - 1 {
      SectorRange(banks[i], s + 1);
      AddressInFlash(banks, i, s + 1, g + 1);
    }
  }

  lemma AddressInFlash(banks: seq<Bank>, i: int, s: int, x: int)
    requires Holds(banks, i, s, x)
    ensures InFlash(banks, x)
  {
  }

  lemma NotInBank(banks: seq<Bank>, i: nat, x: int)
    requires Ascending(banks) && i < |banks| && banks[i].known && !InFlash(banks, x)
    ensures !HasStart(banks[i], x) && !HasEnd(banks[i], x) && !(banks[i].start[0] <= x <= BankEnd(banks[i]))
  {
    var b := banks[i];
    if HasStart(b, x) {
      var s :| 0 <= s < |b.start| && b.start[s] == x;
      SectorRange(b, s);
      AddressInFlash(banks, i, s, x);
    }
    if HasEnd(b, x) {
      var s :| 0 <= s < |b.start| && SectorEnd(b, s) == x;
      SectorRange(b, s);
      AddressInFlash(banks, i, s, x);
    }
    if b.start[0] <= x <= BankEnd(b) {
      var s := SomeSector(b, x, |b.start| - 1);
      AddressInFlash(banks, i, s, x);
    }
  }

  lemma ProgressRefuses(banks: seq<Bank>, first: seq<int>, last: seq<int>, n: nat, lo: int, hi: int, goal: int, cur: int, count: int)
    requires Progress(banks, first, last, n, lo, hi, goal, cur, count) && lo <= hi
    requires !Reaching(banks, lo, hi, goal) && (Aligned(banks, lo, hi) ==> goal == hi)
    ensures !Aligned(banks, lo, hi)
  {
    AlignedReaches(banks, lo, hi);
  }

  lemma ProgressEnds(banks: seq<Bank>, first: seq<int>, last: seq<int>, n: nat, lo: int, hi: int, goal: int, cur: int, count: int)
    requires Ascending(banks) && Progress(banks, first, last, n, lo, hi, goal, cur, count) && (n < |banks| ==> cur > hi)
    requires Aligned(banks, lo, hi) ==> goal == hi
    ensures Covers(banks, first, last, lo, cur) && count == Total(first, last)
    ensures lo <= hi ==> lo <= cur <= hi + 1 && (cur <= hi ==> !StartsSector(banks, cur))
    ensures Aligned(banks, lo, hi) <==> lo <= hi && cur == hi + 1
    ensures Reaching(banks, lo, hi, goal) ==> cur == goal + 1
  {
    if lo <= hi && cur == hi + 1 { CoversAligned(banks, first, last, lo, hi); }
    AlignedReaches(banks, lo, hi);
    if Reaching(banks, lo, hi, goal) {
      if n >= |banks| { NothingLeft(banks, n, lo, goal, cur); }
      if cur > lo { assert InChosen(banks, first, last, cur - 1) && InFlash(banks, cur - 1); }
    }
    hide Covers, Total;
  }

  lemma NothingLeft(banks: seq<Bank>, n: nat, lo: int, goal: int, cur: int)
    requires Ascending(banks) && Aligned(banks, lo, goal) && lo <= cur && n >= |banks| && (cur <= goal ==> Behind(banks, n, cur))
    ensures cur > goal
  {
    if cur <= goal {
      assert InFlash(banks, cur);
      var j, s :| Holds(banks, j, s, cur);
      SectorRange(banks[j], s);
      assert false;
    }
  }

  lemma {:induction false} NothingChosen(first: seq<int>, last: seq<int>)
    requires |first| == |last| && forall i :: 0 <= i < |first| ==> first[i] == -1
    ensures Total(first, last) == 0
    decreases |first|
  {
    if first != [] { NothingChosen(first[..|first| - 1], last[..|first| - 1]); }
  }

  // ---- flash_sect_erase ----

  /** A call of flash_erase. */
  datatype Request = Request(bank: int, first: int, last: int)

  ghost predicate Asked(asked: seq<Request>, i: int, s: int)
  {
    exists k :: 0 <= k < |asked| && asked[k].bank == i && asked[k].first <= s <= asked[k].last
  }

  /** Of the first n banks only chosen sectors were asked for, and all of them if complete. */
  ghost predicate AskedSoFar(asked: seq<Request>, first: seq<int>, last: seq<int>, n: int, complete: bool)
  {
    && |first| == |last| && 0 <= n <= |first|
    && (forall i, s :: Asked(asked, i, s) ==> i < n && Chosen(first, last, i, s))
    && (complete ==> forall i, s :: i < n && Chosen(first, last, i, s) ==> Asked(asked, i, s))
    && (complete && asked == [] ==> forall i :: 0 <= i < n ==> first[i] < 0)
  }

  lemma AskedMore(asked: seq<Request>, first: seq<int>, last: seq<int>, n: int, complete: bool)
    requires AskedSoFar(asked, first, last, n, true) && n < |first| && first[n] >= 0
    ensures AskedSoFar(asked + [Request(n, first[n], last[n])], first, last, n + 1, complete)
  {
    var more := asked + [Request(n, first[n], last[n])];
    forall i, s | Asked(more, i, s) ensures i < n + 1 && Chosen(first, last, i, s)
    {
      var k :| 0 <= k < |more| && more[k].bank == i && more[k].first <= s <= more[k].last;
      if k < |asked| { assert Asked(asked, i, s); }
    }
    forall i, s | i < n + 1 && Chosen(first, last, i, s) ensures Asked(more, i, s)
    {
      if i < n {
        assert Asked(asked, i, s);
        var k :| 0 <= k < |asked| && asked[k].bank == i && asked[k].first <= s <= asked[k].last;
        assert more[k] == asked[k];
      } else {
        assert more[|asked|] == Request(n, first[n], last[n]);
      }
    }
  }

  lemma AskedNoMore(asked: seq<Request>, first: seq<int>, last: seq<int>, n: int, complete: bool)
    requires AskedSoFar(asked, first, last, n, complete) && n < |first| && (complete ==> first[n] < 0)
    ensures AskedSoFar(asked, first, last, n + 1, complete)
  {
  }

  lemma {:induction false} TotalNothing(first: seq<int>, last: seq<int>)
    requires |first| == |last| && forall i :: 0 <= i < |first| ==> first[i] < 0
    ensures Total(first, last) == 0
    decreases |first|
  {
    if first != [] { TotalNothing(first[..|first| - 1], last[..|first| - 1]); }
  }

  lemma {:induction false} TotalSomething(first: seq<int>, last: seq<int>, i: int)
    requires |first| == |last| && (forall j :: 0 <= j < |first| && first[j] >= 0 ==> first[j] <= last[j])
    ensures Total(first, last) >= 0 && (0 <= i < |first| && first[i] >= 0 ==> Total(first, last) > 0)
    decreases |first|
  {
    if first != [] { TotalSomething(first[..|first| - 1], last[..|first| - 1], i); }
  }

  lemma AlignedPlanned(banks: seq<Bank>, first: seq<int>, last: seq<int>, lo: int, hi: int)
    requires Covers(banks, first, last, lo, hi + 1) && lo <= hi
    ensures Total(first, last) > 0
  {
    assert InChosen(banks, first, last, lo);
    var i, s :| Chosen(first, last, i, s) && Holds(banks, i, s, lo);
    TotalSomething(first, last, i);
  }

  /** Every sector with an address from lo to hi was asked for. */
  ghost predicate AllAsked(banks: seq<Bank>, asked: seq<Request>, lo: int, hi: int)
  {
    forall i, s, x :: lo <= x <= hi && Holds(banks, i, s, x) ==> Asked(asked, i, s)
  }

  lemma AskedInside(banks: seq<Bank>, asked: seq<Request>, first: seq<int>, last: seq<int>, lo: int, top: int, hi: int, complete: bool)
    requires Ascending(banks) && Covers(banks, first, last, lo, top) && AskedSoFar(asked, first, last, |banks|, complete) && top <= hi + 1
    ensures forall i, s :: Asked(asked, i, s) ==> 0 <= i < |banks| && 0 <= s < |banks[i].start| && lo <= banks[i].start[s] && SectorEnd(banks[i], s) <= hi
    ensures complete ==> AllAsked(banks, asked, lo, top - 1)
  {
    forall i, s, x | complete && lo <= x < top && Holds(banks, i, s, x) ensures Asked(asked, i, s)
    {
      assert InChosen(banks, first, last, x);
      var j, t :| Chosen(first, last, j, t) && Holds(banks, j, t, x);
      OneSector(banks, i, s, j, t, x);
    }
  }

  /** Every address from lo to hi is in a sector that was asked for. */
  ghost predicate AddressesAsked(banks: seq<Bank>, asked: seq<Request>, lo: int, hi: int)
  {
    forall x {:trigger InAsked(banks, asked, x)} :: lo <= x <= hi ==> InAsked(banks, asked, x)
  }

  ghost predicate InAsked(banks: seq<Bank>, asked: seq<Request>, x: int)
  {
    exists i, s :: Holds(banks, i, s, x) && Asked(asked, i, s)
  }

  /** A plan that was asked for as a whole leaves nothing of the range exactly if it reaches its end. */
  lemma AskedExactly(banks: seq<Bank>, asked: seq<Request>, first: seq<int>, last: seq<int>, lo: int, top: int, hi: int)
    requires Ascending(banks) && Covers(banks, first, last, lo, top) && AskedSoFar(asked, first, last, |banks|, true) && lo <= hi && top <= hi + 1
    ensures AddressesAsked(banks, asked, lo, hi) <==> top == hi + 1
  {
    if top == hi + 1 {
      forall x {:trigger InAsked(banks, asked, x)} | lo <= x <= hi ensures InAsked(banks, asked, x)
      {
        assert InChosen(banks, first, last, x);
        var i, s :| Chosen(first, last, i, s) && Holds(banks, i, s, x);
        assert Asked(asked, i, s);
      }
    } else {
      forall i, s | Asked(asked, i, s) ensures !Holds(banks, i, s, hi) { assert Chosen(first, last, i, s); }
      assert !InAsked(banks, asked, hi);
    }
  }

  /** The requests go from bank to bank, and end with the first that the driver does not grant, whose
      code is the result; without any request the range is refused. */
  ghost predicate Reported(asked: seq<Request>, codes: nat -> int, rcode: int)
  {
    && (forall k :: 0 <= k < |asked| ==> asked[k].bank >= 0)
    && (forall j, k :: 0 <= j < k < |asked| ==> asked[j].bank < asked[k].bank)
    && (forall k :: 0 <= k < |asked| - 1 ==> codes(asked[k].bank) == 0)
    && rcode == if asked == [] then 1 else codes(asked[|asked| - 1].bank)
  }

  /** The same while requests may follow, for banks from n on. */
  ghost predicate Reporting(asked: seq<Request>, codes: nat -> int, rcode: int, n: int)
  {
    if asked == [] then rcode == 0 else Reported(asked, codes, rcode) && asked[|asked| - 1].bank < n
  }

  lemma ReportsMore(asked: seq<Request>, codes: nat -> int, n: nat, r: Request)
    requires Reporting(asked, codes, 0, n) && r.bank == n
    ensures Reporting(asked + [r], codes, codes(n), n + 1)
  {
    var more := asked + [r];
    assert more[|asked|] == r;
  }

  lemma ReportsOn(asked: seq<Request>, codes: nat -> int, rcode: int, n: nat)
    requires Reporting(asked, codes, rcode, n)
    ensures Reporting(asked, codes, rcode, n + 1)
    ensures asked == [] ==> rcode == 0
    ensures asked != [] ==> Reported(asked, codes, rcode)
  {
  }

  /** A grant by all means a success, and a success a grant of all requests. */
  lemma ReportedGrants(asked: seq<Request>, codes: nat -> int, rcode: int)
    requires Reported(asked, codes, rcode)
    ensures rcode == 0 <==> asked != [] && forall k :: 0 <= k < |asked| ==> codes(asked[k].bank) == 0
  {
  }

  /** flash_sect_erase, with codes as the results of flash_erase on each bank: no sector outside the
      range is ever asked for, and an aligned range is asked for as a whole. A range that runs past
      the end of the flash is a success too, and a success leaves something of the range exactly if
      it is not aligned. */
  method SectErase(banks: seq<Bank>, addrFirst: int, addrLast: int, codes: nat -> int) returns (rcode: int, asked: seq<Request>)
    requires Ascending(banks) && 0 <= addrFirst < ADDRESSES && 0 <= addrLast < ADDRESSES
    ensures forall i, s :: Asked(asked, i, s) ==> 0 <= i < |banks| && 0 <= s < |banks[i].start| && addrFirst <= banks[i].start[s] && SectorEnd(banks[i], s) <= addrLast
    ensures rcode == 0 ==> asked != [] && addrFirst <= addrLast
    ensures rcode == 0 ==> (AddressesAsked(banks, asked, addrFirst, addrLast) <==> Aligned(banks, addrFirst, addrLast))
    ensures Aligned(banks, addrFirst, addrLast) && rcode == 0 ==> AllAsked(banks, asked, addrFirst, addrLast)
    ensures Aligned(banks, addrFirst, addrLast) || PastEnd(banks, addrFirst, addrLast) ==> asked != []
    ensures Reported(asked, codes, rcode)
    ensures rcode == 0 <==> asked != [] && forall k :: 0 <= k < |asked| ==> codes(asked[k].bank) == 0
  {
    hide Aligned, PastEnd, Reaching, Covers, Total, StartsSector, AskedSoFar, Asked, AddressesAsked, Reported, Reporting;
    var sFirst, sLast := new int[|banks|], new int[|banks|];
    var planned: int;
    ghost var top: int;
    rcode, planned, top := FillSectRanges(banks, addrFirst, addrLast, sFirst, sLast);
    asked := [];
    NothingReported(codes);
    ghost var f, l := sFirst[..], sLast[..];
    NothingAsked(f, l);
    PlannedSome(banks, f, l, addrFirst, addrLast, top, rcode);
    if planned != 0 && rcode == 0 {
      for bank := 0 to |banks|
        invariant sFirst[..] == f && sLast[..] == l
        invariant AskedSoFar(asked, f, l, bank, rcode == 0)
        invariant Reporting(asked, codes, rcode, bank)
      {
        if rcode == 0 && sFirst[bank] >= 0 {
          AskedMore(asked, f, l, bank, codes(bank) == 0);
          ReportsMore(asked, codes, bank, Request(bank, sFirst[bank], sLast[bank]));
          asked := asked + [Request(bank, sFirst[bank], sLast[bank])];
          rcode := codes(bank);
        } else {
          AskedNoMore(asked, f, l, bank, rcode == 0);
          ReportsOn(asked, codes, rcode, bank);
        }
      }
      ReportsOn(asked, codes, rcode, |banks|);
      SomethingAsked(asked, f, l, rcode == 0);
      AskedInside(banks, asked, f, l, addrFirst, top, addrLast, rcode == 0);
      if rcode == 0 { AskedExactly(banks, asked, f, l, addrFirst, top, addrLast); }
    } else if rcode == 0 {
      rcode := 1;
    }
    ReportedGrants(asked, codes, rcode);
  }

  lemma NothingReported(codes: nat -> int)
    ensures Reported([], codes, 1) && Reporting([], codes, 0, 0)
  {
  }

  /** An aligned range, and one that runs past the end of the flash, has something to erase. */
  lemma PlannedSome(banks: seq<Bank>, first: seq<int>, last: seq<int>, lo: int, hi: int, top: int, rcode: int)
    requires rcode == 0 ==> Covers(banks, first, last, lo, top)
    requires forall g :: Reaching(banks, lo, hi, g) ==> rcode == 0 && top == g + 1
    ensures Aligned(banks, lo, hi) || PastEnd(banks, lo, hi) ==> rcode == 0 && Total(first, last) > 0
  {
    AlignedReaches(banks, lo, hi);
    if Aligned(banks, lo, hi) || PastEnd(banks, lo, hi) {
      var g :| Reaching(banks, lo, hi, g);
      AlignedPlanned(banks, first, last, lo, g);
    }
  }

  /** Two sectors of a hundred bytes; a range from the second one on to far behind it. */
  const SMALL_BANK: Bank := Bank(true, [0, 100], 200, [false, false])

  lemma PastEndExample()
    ensures Ascending([SMALL_BANK]) && PastEnd([SMALL_BANK], 100, 299) && !Aligned([SMALL_BANK], 100, 299)
  {
    var banks := [SMALL_BANK];
    forall x | 100 <= x <= 199 ensures InFlash(banks, x) { AddressInFlash(banks, 0, 1, x); }
    assert Holds(banks, 0, 1, 100) && Holds(banks, 0, 1, 199);
    assert Reaching(banks, 100, 299, 199);
    assert !InFlash(banks, 299);
  }

  lemma NothingAsked(first: seq<int>, last: seq<int>)
    requires |first| == |last|
    ensures AskedSoFar([], first, last, 0, true) && forall i, s :: !Asked([], i, s)
  {
  }

  lemma SomethingAsked(asked: seq<Request>, first: seq<int>, last: seq<int>, complete: bool)
    requires AskedSoFar(asked, first, last, |first|, complete) && Total(first, last) != 0
    ensures complete ==> asked != []
  {
    if complete && asked == [] { TotalNothing(first, last); }
  }

  // ---- the "+length" form of an address range ----

  ghost predicate RoundsTo(banks: seq<Bank>, x: int, rounded: int)
  {
    exists i, s :: Holds(banks, i, s, x) && rounded == SectorEnd(banks[i], s)
  }

  /** The rounding in addr_spec: the last address of the sector that holds addrLast. */
  method RoundUp(banks: seq<Bank>, addrLast: int) returns (found: bool, rounded: int)
    requires Ascending(banks) && forall i :: 0 <= i < |banks| && !banks[i].known ==> banks[i].start == []
    ensures found <==> InFlash(banks, addrLast)
    ensures found ==> RoundsTo(banks, addrLast, rounded)
    ensures !found ==> rounded == addrLast
  {
    found, rounded := false, addrLast;
    for bank := 0 to |banks|
      invariant found ==> RoundsTo(banks, addrLast, rounded)
      invariant !found ==> rounded == addrLast && forall i, s :: Holds(banks, i, s, addrLast) ==> i >= bank
    {
      var b := banks[bank];
      for s := 0 to |b.start|
        invariant found ==> RoundsTo(banks, addrLast, rounded)
        invariant !found ==> rounded == addrLast && forall i, t :: Holds(banks, i, t, addrLast) ==> i > bank || (i == bank && t >= s)
      {
        if !found {
          var end := SectorEnd(b, s);
          if rounded <= end && rounded >= b.start[s] {
            assert Holds(banks, bank, s, addrLast);
            found, rounded := true, end;
          }
        }
      }
    }
  }

  /** A length that stays within the flash, from the start of a sector, makes an aligned range. */
  lemma RoundedIsAligned(banks: seq<Bank>, first: int, last: int, rounded: int)
    requires Ascending(banks) && StartsSector(banks, first) && first <= last && forall x :: first <= x <= last ==> InFlash(banks, x)
    requires RoundsTo(banks, last, rounded)
    ensures last <= rounded && Aligned(banks, first, rounded)
  {
    var i, s :| Holds(banks, i, s, last) && rounded == SectorEnd(banks[i], s);
    SectorRange(banks[i], s);
    assert Holds(banks, i, s, rounded);
    forall x | first <= x <= rounded ensures InFlash(banks, x)
    {
      if x > last { assert Holds(banks, i, s, x); }
    }
  }

  ghost predicate WholeInFlash(banks: seq<Bank>, first: int, length: int)
  {
    StartsSector(banks, first) && length > 1 && forall x :: first <= x < first + length ==> InFlash(banks, x)
  }

  lemma WholeHasLast(banks: seq<Bank>, first: int, length: int)
    requires Ascending(banks) && WholeInFlash(banks, first, length)
    ensures (first + length - 1) % ADDRESSES == first + length - 1 && InFlash(banks, first + length - 1)
  {
    assert InFlash(banks, first + length - 1);
    InAddresses(banks, first + length - 1);
  }

  lemma WholeIsAligned(banks: seq<Bank>, first: int, length: int, last: int, rounded: int)
    requires Ascending(banks) && WholeInFlash(banks, first, length) && last == (first + length - 1) % ADDRESSES && RoundsTo(banks, last, rounded)
    ensures last == first + length - 1 <= rounded && Aligned(banks, first, rounded)
  {
    WholeHasLast(banks, first, length);
    hide InFlash, StartsSector, Aligned, RoundsTo, Ascending;
    RoundedIsAligned(banks, first, last, rounded);
  }

  /** erase <start> +<length>, with the addresses read: everything from the start to the end of the
      sector that holds the last byte is erased, when all of it is flash and the driver agrees. */
  method EraseLength(banks: seq<Bank>, first: int, length: int, codes: nat -> int) returns (rcode: int, asked: seq<Request>)
    requires Ascending(banks) && (forall i :: 0 <= i < |banks| && !banks[i].known ==> banks[i].start == [])
    requires 0 <= first < ADDRESSES && 0 <= length < ADDRESSES
    ensures WholeInFlash(banks, first, length) ==> asked != [] && (rcode == 0 ==> AllAsked(banks, asked, first, first + length - 1))
    ensures Reported(asked, codes, rcode)
    ensures rcode == 0 <==> asked != [] && forall k :: 0 <= k < |asked| ==> codes(asked[k].bank) == 0
    ensures forall i, s :: Asked(asked, i, s) ==> 0 <= i < |banks| && 0 <= s < |banks[i].start| && first <= banks[i].start[s]
  {
    var last := (first + length - 1) % ADDRESSES;
    hide RoundsTo, Aligned, InFlash, PastEnd, WholeInFlash, AddressesAsked, Holds, AllAsked;
    var found, rounded := RoundUp(banks, last);
    if found { RoundsInRange(banks, last, rounded); }
    if WholeInFlash(banks, first, length) { WholeRounds(banks, first, length, last, found, rounded); }
    if !found || first >= rounded {
      NothingReported(codes);
      return 1, [];
    }
    rcode, asked := SectErase(banks, first, rounded, codes);
    if first + length - 1 <= rounded && AllAsked(banks, asked, first, rounded) { AskedBefore(banks, asked, first, first + length - 1, rounded); }
  }

  lemma AskedBefore(banks: seq<Bank>, asked: seq<Request>, lo: int, mid: int, hi: int)
    requires AllAsked(banks, asked, lo, hi) && mid <= hi
    ensures AllAsked(banks, asked, lo, mid)
  {
    hide Holds, Asked;
  }

  lemma WholeRounds(banks: seq<Bank>, first: int, length: int, last: int, found: bool, rounded: int)
    requires Ascending(banks) && WholeInFlash(banks, first, length) && last == (first + length - 1) % ADDRESSES
    requires found <==> InFlash(banks, last)
    requires found ==> RoundsTo(banks, last, rounded)
    ensures found && first < first + length - 1 <= rounded && Aligned(banks, first, rounded)
  {
    hide InFlash, RoundsTo, Aligned;
    WholeHasLast(banks, first, length);
    WholeIsAligned(banks, first, length, last, rounded);
  }

  lemma RoundsInRange(banks: seq<Bank>, x: int, rounded: int)
    requires Ascending(banks) && RoundsTo(banks, x, rounded)
    ensures 0 <= rounded < ADDRESSES
  {
    var i, s :| Holds(banks, i, s, x) && rounded == SectorEnd(banks[i], s);
    SectorRange(banks[i], s);
  }

  lemma InAddresses(banks: seq<Bank>, x: int)
    requires Ascending(banks) && InFlash(banks, x)
    ensures 0 <= x < ADDRESSES && x % ADDRESSES == x
  {
    var i, s :| Holds(banks, i, s, x);
    SectorRange(banks[i], s);
  }
}
