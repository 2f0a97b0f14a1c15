/** Copying memory to flash across several banks. */
module FlashWrite {
  import opened FlashRanges

  const ERR_OK := 0
  const ERR_PROTECTED := 4
  const ERR_INVAL := 8

  /** A call of write_buff. */
  datatype Piece = Piece(bank: int, addr: int, data: seq<int>)

  /** The bytes of the pieces one after the other. */
  function Flat(log: seq<Piece>): seq<int>
  {
    if log == [] then [] else Flat(log[..|log| - 1]) + log[|log| - 1].data
  }

  /** The pieces lie end to end from addr on. */
  ghost predicate EndToEnd(log: seq<Piece>, addr: int)
  {
    forall k :: 0 <= k < |log| ==> log[k].addr == addr + |Flat(log[..k])|
  }

  /** Every piece is inside the bank it is given to. */
  ghost predicate InBanks(banks: seq<Bank>, log: seq<Piece>)
  {
    forall k :: 0 <= k < |log| ==> PieceInBank(banks, log[k])
  }

  predicate PieceInBank(banks: seq<Bank>, p: Piece)
  {
    0 <= p.bank < |banks| && |banks[p.bank].start| > 0
    && banks[p.bank].start[0] <= p.addr && p.addr + |p.data| - 1 <= BankEnd(banks[p.bank])
  }

  ghost predicate AllKnown(banks: seq<Bank>) { forall i :: 0 <= i < |banks| ==> banks[i].known }

  ghost predicate InBank(b: Bank, x: int) { b.known && |b.start| > 0 && b.start[0] <= x <= BankEnd(b) }

  ghost predicate InSome(banks: seq<Bank>, x: int) { exists i :: 0 <= i < |banks| && InBank(banks[i], x) }

  /** A protected sector has an address from lo to hi. */
  ghost predicate Blocked(banks: seq<Bank>, lo: int, hi: int)
  {
    exists i, s :: 0 <= i < |banks| && BlockedAt(banks[i], s, lo, hi)
  }

  ghost predicate BlockedAt(b: Bank, s: int, lo: int, hi: int)
  {
    b.known && 0 <= s < |b.start| == |b.protect| && b.protect[s] && lo <= SectorEnd(b, s) && b.start[s] <= hi
  }

  /** The address behind the last sector of the address space reads as zero, so that its protection
      is never seen. */
  ghost predicate SeenAt(b: Bank, s: int, lo: int, hi: int)
  {
    BlockedAt(b, s, lo, hi) && SectorEnd(b, s) != ADDRESSES - 1
  }

  ghost predicate Seen(banks: seq<Bank>, lo: int, hi: int)
  {
    exists i, s :: 0 <= i < |banks| && SeenAt(banks[i], s, lo, hi)
  }

  lemma {:induction false} FlatMore(log: seq<Piece>, p: Piece, addr: int)
    requires EndToEnd(log, addr) && p.addr == addr + |Flat(log)|
    ensures Flat(log + [p]) == Flat(log) + p.data && EndToEnd(log + [p], addr)
  {
    var more := log + [p];
    assert more[..|log|] == log;
    forall k | 0 <= k < |more| ensures more[k].addr == addr + |Flat(more[..k])|
    {
      if k < |log| { assert more[..k] == log[..k] && more[k] == log[k]; }
    }
  }

  /** addr2info: the bank that holds an address, if any; -1 stands for a null pointer. */
  method BankOf(banks: seq<Bank>, addr: int) returns (i: int)
    requires Ascending(banks)
    ensures if InSome(banks, addr) then 0 <= i < |banks| && InBank(banks[i], addr) else i == -1
  {
    for n := 0 to |banks|
      invariant forall j :: 0 <= j < n ==> !InBank(banks[j], addr)
    {
      var b := banks[n];
      if b.known && addr >= b.start[0] && addr <= b.start[0] + b.size - 1 {
        return n;
      }
    }
    i := -1;
  }

  /** The search for protected sectors among banks first to last. */
  method AnyProtected(banks: seq<Bank>, first: int, last: int, addr: int, end: int) returns (found: bool)
    requires Ascending(banks) && AllKnown(banks) && 0 <= first < |banks| && 0 <= last < |banks| && 0 <= addr
    ensures found <==> exists i, s :: first <= i <= last && SeenAt(banks[i], s, addr, end)
  {
    var info := first;
    while info <= last
      invariant first <= info && (first <= last ==> info <= last + 1)
      invariant forall i, s :: first <= i < info && i <= last ==> !SeenAt(banks[i], s, addr, end)
    {
      var b := banks[info];
      var bEnd := (b.start[0] + b.size) % ADDRESSES;
      for i := 0 to |b.start|
        invariant forall s :: 0 <= s < i ==> !SeenAt(b, s, addr, end)
      {
        var next := if i == |b.start| - 1 then bEnd else b.start[i + 1];
        SectorRange(b, i);
        if i < |b.start| - 1 { SectorsInOrder(b, i, i + 1); }
        if end >= b.start[i] && addr < next && b.protect[i] {
          assert SeenAt(b, i, addr, end);
          return true;
        }
      }
      info := info + 1;
    }
    found := false;
  }

  /** In ascending banks only those from the first address's to the last one's matter. */
  lemma SeenBetween(banks: seq<Bank>, first: int, last: int, addr: int, end: int)
    requires Ascending(banks) && 0 <= first < |banks| && 0 <= last < |banks| && InBank(banks[first], addr) && InBank(banks[last], end)
    ensures Seen(banks, addr, end) <==> exists i, s :: first <= i <= last && SeenAt(banks[i], s, addr, end)
  {
    if Seen(banks, addr, end) {
      var i, s :| 0 <= i < |banks| && SeenAt(banks[i], s, addr, end);
      SectorRange(banks[i], s);
    }
  }

  /** What is seen is what blocks the range, but for the last sector of the address space. */
  lemma SeenExactly(banks: seq<Bank>, lo: int, hi: int)
    requires Ascending(banks)
    ensures Seen(banks, lo, hi) ==> Blocked(banks, lo, hi)
    ensures Blocked(banks, lo, hi) ==> Seen(banks, lo, hi) || exists i, s :: 0 <= i < |banks| && BlockedAt(banks[i], s, lo, hi) && SectorEnd(banks[i], s) == ADDRESSES - 1
  {
    if Seen(banks, lo, hi) {
      var i, s :| 0 <= i < |banks| && SeenAt(banks[i], s, lo, hi);
      assert BlockedAt(banks[i], s, lo, hi);
    }
    if Blocked(banks, lo, hi) {
      var i, s :| 0 <= i < |banks| && BlockedAt(banks[i], s, lo, hi);
      if SectorEnd(banks[i], s) != ADDRESSES - 1 { assert SeenAt(banks[i], s, lo, hi); }
    }
  }

  /** Every address from lo to hi is in some bank. */
  ghost predicate Gapless(banks: seq<Bank>, lo: int, hi: int)
  {
    forall x {:trigger InSome(banks, x)} :: lo <= x <= hi ==> InSome(banks, x)
  }

  /** The bank after those that end before a holds a, unless a is in no bank. */
  lemma NextBank(banks: seq<Bank>, i: nat, a: int, last: nat, end: int)
    requires Ascending(banks) && AllKnown(banks) && i <= last < |banks| && a <= end && InBank(banks[last], end)
    requires InBank(banks[i], a) || (i > 0 && BankEnd(banks[i - 1]) == a - 1)
    ensures a <= BankEnd(banks[i]) && (InSome(banks, a) ==> InBank(banks[i], a))
  {
    if InSome(banks, a) {
      var j :| 0 <= j < |banks| && InBank(banks[j], a);
    }
  }

  ghost predicate Succeeded(log: seq<Piece>, codes: nat -> int)
  {
    forall k :: 0 <= k < |log| ==> log[k].bank >= 0 && codes(log[k].bank) == 0
  }

  /** The result is that of the last write; all before it have succeeded. */
  ghost predicate Returned(log: seq<Piece>, codes: nat -> int, rc: int)
  {
    log != [] ==> Succeeded(log[..|log| - 1], codes) && log[|log| - 1].bank >= 0 && rc == codes(log[|log| - 1].bank)
  }

  lemma NothingReturned(codes: nat -> int)
    ensures Succeeded([], codes) && forall rc :: Returned([], codes, rc)
  {
  }

  lemma ReturnsLast(log: seq<Piece>, codes: nat -> int, p: Piece)
    requires Succeeded(log, codes) && p.bank >= 0
    ensures Returned(log + [p], codes, codes(p.bank)) && (Succeeded(log + [p], codes) <==> codes(p.bank) == 0)
    ensures Returned(log, codes, ERR_OK)
  {
    var more := log + [p];
    assert more[..|log|] == log && more[|log|] == p;
    if codes(p.bank) == 0 {
      forall k | 0 <= k < |more| ensures more[k].bank >= 0 && codes(more[k].bank) == 0 { if k < |log| { assert more[k] == log[k]; } }
    }
    if log != [] { assert log[|log| - 1].bank >= 0; }
  }

  /** All but the last left bytes of src have been written. */
  ghost predicate Written(banks: seq<Bank>, src: seq<int>, addr: int, end: int, log: seq<Piece>, left: int)
  {
    && 0 <= left <= |src| && Flat(log) == src[..|src| - left] && EndToEnd(log, addr)
    && (end >= addr && Gapless(banks, addr, end) ==> InBanks(banks, log))
  }

  lemma WrittenMore(banks: seq<Bank>, src: seq<int>, addr: int, end: int, log: seq<Piece>, left: int, piece: Piece)
    requires Written(banks, src, addr, end, log, left) && piece.addr == addr + |src| - left && |piece.data| <= left
    requires piece.data == src[|src| - left..|src| - left + |piece.data|]
    requires end >= addr && Gapless(banks, addr, end) ==> PieceInBank(banks, piece)
    ensures Written(banks, src, addr, end, log + [piece], left - |piece.data|)
    ensures Flat(log + [piece]) <= src
  {
    FlatMore(log, piece, addr);
    assert src[..|src| - left] + piece.data == src[..|src| - left + |piece.data|];
  }

  /** The length from an address to the end of a bank does not wrap. */
  lemma RoomInBank(banks: seq<Bank>, i: nat, a: int)
    requires Ascending(banks) && AllKnown(banks) && i < |banks| && 0 <= a <= BankEnd(banks[i])
    requires InBank(banks[i], a) || a > 0
    ensures var b := banks[i]; (b.start[0] + b.size - a) % ADDRESSES == b.start[0] + b.size - a
  {
    assert BankOk(banks[i]);
  }

  /** What is written to a bank: from a to its end, or all that is left. */
  function Taken(b: Bank, a: int, left: int): int
    requires |b.start| > 0
  {
    var len := (b.start[0] + b.size - a) % ADDRESSES;
    if len > left then left else len
  }

  /** Where the loop is: with left of n bytes to come, at a bank that holds the next address or begins
      behind it; a range that wraps around gets as far as one bank. */
  ghost predicate At(banks: seq<Bank>, addr: int, n: int, first: nat, last: nat, end: int, info: nat, left: int)
    requires Ascending(banks) && AllKnown(banks) && last < |banks|
  {
    var a := addr + n - left;
    && first <= info && 0 <= left <= n
    && (end >= addr ==> info <= last + 1 && (info > last ==> left == 0))
    && (end >= addr && left > 0 ==> InBank(banks[info], a) || (info > 0 && BankEnd(banks[info - 1]) == a - 1))
    && (end < addr ==> left > 0 && (info == first ==> left == n) && (info > first ==> info > last))
  }

  lemma Starts(banks: seq<Bank>, addr: int, n: int, first: nat, last: nat, end: int)
    requires Ascending(banks) && AllKnown(banks) && first < |banks| && last < |banks| && 0 <= addr && n > 0
    requires InBank(banks[first], addr) && InBank(banks[last], end)
    ensures At(banks, addr, n, first, last, end, first, n)
  {
    hide SectorEnd;
  }

  lemma TakenFits(banks: seq<Bank>, i: nat, a: int, left: int)
    requires Ascending(banks) && AllKnown(banks) && i < |banks| && 0 <= a <= BankEnd(banks[i]) && left > 0
    requires InBank(banks[i], a) || a > 0
    ensures var b := banks[i];
            |b.start| > 0 && 0 < Taken(b, a, left) <= left && a + Taken(b, a, left) - 1 <= BankEnd(b)
    ensures var b := banks[i]; Taken(b, a, left) == left || a + Taken(b, a, left) - 1 == BankEnd(b)
  {
    RoomInBank(banks, i, a);
    assert BankOk(banks[i]);
    hide Ascending, AllKnown, InBank;
  }

  lemma TakesPart(banks: seq<Bank>, addr: int, n: int, first: nat, last: nat, end: int, info: nat, left: int)
    requires Ascending(banks) && AllKnown(banks) && first < |banks| && last < |banks| && 0 <= addr
    requires InBank(banks[first], addr) && InBank(banks[last], end)
    requires end == addr + n - 1 || (end < addr && addr + n > ADDRESSES)
    requires At(banks, addr, n, first, last, end, info, left) && info <= last && left > 0
    ensures var a, b := addr + n - left, banks[info];
            && |b.start| > 0 && 0 <= Taken(b, a, left) <= left && a + Taken(b, a, left) - 1 <= BankEnd(b)
            && (end >= addr ==> addr <= a <= end && (InSome(banks, a) ==> InBank(b, a)))
    ensures At(banks, addr, n, first, last, end, info + 1, left - Taken(banks[info], addr + n - left, left))
  {
    var a := addr + n - left;
    if end >= addr { NextBank(banks, info, a, last, end); }
    TakenFits(banks, info, a, left);
    hide SectorEnd, Ascending, AllKnown, BankOk, InSome, Taken;
  }

  lemma Ends(banks: seq<Bank>, addr: int, n: int, first: nat, last: nat, end: int, info: nat, left: int)
    requires Ascending(banks) && AllKnown(banks) && last < |banks|
    requires At(banks, addr, n, first, last, end, info, left) && (info > last || left == 0)
    ensures left == 0 <==> end >= addr
  {
    hide Ascending, AllKnown, InBank, BankEnd;
  }

  /** The loop of flash_write over the banks from the one that holds addr to the one that holds end.
      Unless the range wraps around, a success has written all of src from addr on, in order; the
      pieces are inside their banks when no address of the range is outside the flash. */
  method WriteBanks(banks: seq<Bank>, src: seq<int>, addr: int, first: nat, last: nat, end: int, codes: nat -> int) returns (rc: int, log: seq<Piece>)
    requires Ascending(banks) && AllKnown(banks) && first < |banks| && last < |banks| && 0 <= addr
    requires InBank(banks[first], addr) && InBank(banks[last], end) && src != []
    requires end == addr + |src| - 1 || (end < addr && addr + |src| > ADDRESSES)
    ensures EndToEnd(log, addr) && Flat(log) <= src
    ensures Returned(log, codes, rc) && (rc == ERR_OK <==> Succeeded(log, codes))
    ensures rc == ERR_OK ==> (Flat(log) == src <==> end >= addr)
    ensures end >= addr && Gapless(banks, addr, end) ==> InBanks(banks, log)
    ensures first > last ==> rc == ERR_OK && log == []
  {
    hide Written, Gapless, EndToEnd, InBanks, PieceInBank, Flat, SectorEnd, InBank, BankEnd, Ascending, AllKnown, Taken, At, Succeeded, Returned;
    log := [];
    var a, left, info := addr, |src|, first;
    NothingWritten(banks, src, addr, end);
    NothingReturned(codes);
    Starts(banks, addr, |src|, first, last, end);
    while info <= last && left > 0
      invariant 0 <= left <= |src| && a == addr + |src| - left && first <= info
      invariant At(banks, addr, |src|, first, last, end, info, left)
      invariant Written(banks, src, addr, end, log, left) && Succeeded(log, codes)
      invariant first > last ==> log == []
    {
      TakesPart(banks, addr, |src|, first, last, end, info, left);
      var len := Taken(banks[info], a, left);
      var piece := Piece(info, a, src[|src| - left..|src| - left + len]);
      PieceFits(banks, addr, end, piece);
      WrittenMore(banks, src, addr, end, log, left, piece);
      ReturnsLast(log, codes, piece);
      log := log + [piece];
      if codes(info) != 0 {
        WrittenWhat(banks, src, addr, end, log, left - len);
        return codes(info), log;
      }
      left := left - len;
      a := a + len;   // behind the last address this is read no more
      info := info + 1;
    }
    Ends(banks, addr, |src|, first, last, end, info, left);
    WrittenWhat(banks, src, addr, end, log, left);
    ReturnsLast(log, codes, Piece(0, 0, []));
    rc := ERR_OK;
  }

  lemma NothingWritten(banks: seq<Bank>, src: seq<int>, addr: int, end: int)
    ensures Written(banks, src, addr, end, [], |src|)
  {
  }

  lemma PieceFits(banks: seq<Bank>, addr: int, end: int, p: Piece)
    requires 0 <= p.bank < |banks| && |banks[p.bank].start| > 0 && p.addr + |p.data| - 1 <= BankEnd(banks[p.bank])
    requires end >= addr ==> addr <= p.addr <= end && (InSome(banks, p.addr) ==> InBank(banks[p.bank], p.addr))
    ensures end >= addr && Gapless(banks, addr, end) ==> PieceInBank(banks, p)
  {
  }

  lemma WrittenWhat(banks: seq<Bank>, src: seq<int>, addr: int, end: int, log: seq<Piece>, left: int)
    requires Written(banks, src, addr, end, log, left)
    ensures EndToEnd(log, addr) && Flat(log) <= src && (Flat(log) == src <==> left == 0)
    ensures end >= addr && Gapless(banks, addr, end) ==> InBanks(banks, log)
  {
  }

  /** The range starts in a later bank than it ends in. */
  ghost predicate RunsBackward(banks: seq<Bank>, addr: int, end: int)
  {
    exists i, j :: 0 <= j < i < |banks| && InBank(banks[i], addr) && InBank(banks[j], end)
  }

  lemma BackwardBanks(banks: seq<Bank>, addr: int, end: int, first: int, last: int)
    requires Ascending(banks) && 0 <= first < |banks| && 0 <= last < |banks| && InBank(banks[first], addr) && InBank(banks[last], end)
    ensures RunsBackward(banks, addr, end) <==> last < first
  {
    if RunsBackward(banks, addr, end) {
      var i, j :| 0 <= j < i < |banks| && InBank(banks[i], addr) && InBank(banks[j], end);
      OneBank(banks, i, first, addr);
      OneBank(banks, j, last, end);
    }
  }

  lemma OneBank(banks: seq<Bank>, i: int, j: int, x: int)
    requires Ascending(banks) && 0 <= i < |banks| && 0 <= j < |banks| && InBank(banks[i], x) && InBank(banks[j], x)
    ensures i == j
  {
  }

  lemma BackwardInSome(banks: seq<Bank>, addr: int, end: int)
    ensures RunsBackward(banks, addr, end) ==> InSome(banks, addr) && InSome(banks, end)
  {
  }

  const LOW_BANK: Bank := Bank(true, [0], 0x1_0000, [false])
  const HIGH_BANK: Bank := Bank(true, [0xFFFF_0000], 0x1_0000, [true])

  /** Two banks at the two ends of the address space: a range that wraps around from one to the
      other, and a protected last sector that is not seen. */
  lemma WrapExamples()
    ensures Ascending([LOW_BANK, HIGH_BANK]) && AllKnown([LOW_BANK, HIGH_BANK])
    ensures RunsBackward([LOW_BANK, HIGH_BANK], 0xFFFF_FF00, LastAddress(0xFFFF_FF00, 0x200))
    ensures Blocked([LOW_BANK, HIGH_BANK], 0xFFFF_0000, 0xFFFF_00FF) && !Seen([LOW_BANK, HIGH_BANK], 0xFFFF_0000, 0xFFFF_00FF)
  {
    var banks := [LOW_BANK, HIGH_BANK];
    assert LastAddress(0xFFFF_FF00, 0x200) == 0xFF;
    assert InBank(banks[1], 0xFFFF_FF00) && InBank(banks[0], 0xFF);
    assert BlockedAt(banks[1], 0, 0xFFFF_0000, 0xFFFF_00FF);
  }

  /** The last address of a range, in 32 bits. */
  function LastAddress(addr: int, cnt: int): int { (addr + cnt - 1) % ADDRESSES }

  lemma LastAddressWraps(addr: int, cnt: int)
    requires 0 <= addr < ADDRESSES && 0 < cnt < ADDRESSES
    ensures if addr + cnt <= ADDRESSES then LastAddress(addr, cnt) == addr + cnt - 1 else LastAddress(addr, cnt) < addr
  {
  }

  /** flash_write, with codes as the results of write_buff on each bank. A range with an end outside
      the flash or with a protected sector in it is refused and nothing is written. Otherwise what
      is written is a part of src from addr on, in order; when the addresses do not wrap around, a
      success has written all of it. */
  method Write(banks: seq<Bank>, src: seq<int>, addr: int, cnt: int, codes: nat -> int) returns (rc: int, log: seq<Piece>)
    requires Ascending(banks) && AllKnown(banks) && 0 <= addr < ADDRESSES && 0 <= cnt < ADDRESSES && |src| == cnt
    ensures EndToEnd(log, addr) && Flat(log) <= src
    ensures Returned(log, codes, rc)
    ensures cnt == 0 ==> rc == ERR_OK && log == []
    ensures cnt > 0 && !(InSome(banks, addr) && InSome(banks, LastAddress(addr, cnt))) ==> rc == ERR_INVAL && log == []
    ensures cnt > 0 && addr + cnt <= ADDRESSES && InSome(banks, addr) && InSome(banks, addr + cnt - 1) ==>
              if Seen(banks, addr, addr + cnt - 1) then rc == ERR_PROTECTED && log == [] else rc == ERR_OK <==> Succeeded(log, codes)
    ensures cnt > 0 && addr + cnt <= ADDRESSES && Gapless(banks, addr, addr + cnt - 1) ==> InBanks(banks, log)
    ensures cnt > 0 && rc == ERR_OK ==> (Flat(log) == src <==> addr + cnt <= ADDRESSES)
    ensures cnt > 0 && RunsBackward(banks, addr, LastAddress(addr, cnt)) ==> rc == ERR_OK && log == []
  {
    hide Flat, InBank, InBanks, Succeeded, Returned, EndToEnd, Gapless, LastAddress, Seen, SeenAt, InSome, BankOk, RunsBackward;
    log := [];
    NoPieces(banks, addr);
    NothingReturned(codes);
    assert [] <= src;
    var end := LastAddress(addr, cnt);
    if cnt > 0 { LastAddressWraps(addr, cnt); }
    var first := BankOf(banks, addr);
    var last := BankOf(banks, end);
    if cnt == 0 {
      return ERR_OK, log;
    }
    if first < 0 || last < 0 {
      BackwardInSome(banks, addr, end);
      return ERR_INVAL, log;
    }
    var blocked := AnyProtected(banks, first, last, addr, end);
    BackwardBanks(banks, addr, end, first, last);
    if addr + cnt <= ADDRESSES { SeenBetween(banks, first, last, addr, end); }
    if blocked {
      return ERR_PROTECTED, log;
    }
    rc, log := WriteBanks(banks, src, addr, first, last, end, codes);
  }

  lemma NoPieces(banks: seq<Bank>, addr: int)
    ensures EndToEnd([], addr) && InBanks(banks, []) && Flat([]) == []
  {
  }
}
