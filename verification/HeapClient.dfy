/** Whole runs: a client that calls the allocator in any order, writes to what it was given, and
    always finds there what it last wrote. */
module HeapClient {
  import opened HeapSizes
  import opened HeapShape
  import opened HeapMemory
  import opened HeapSteps
  import opened HeapTake
  import opened HeapSearch
  import opened HeapResize
  import opened Dlmalloc

  datatype Call =
    | Malloc(slot: nat, bytes: nat)
    | Free(slot: nat)
    | Realloc(slot: nat, bytes: nat)
    | Memalign(slot: nat, alignment: nat, bytes: nat)
    | Trim(pad: nat)
    | Store(slot: nat, offset: nat, value: int)

  /** What the client knows without the allocator: its pointers, the sizes it asked for, and the
      words it has stored behind each pointer. */
  datatype Book = Book(slots: seq<int>, sizes: seq<nat>, want: seq<map<int, int>>)

  predicate Fits(b: Book) { |b.slots| == |b.sizes| == |b.want| }

  function Kept(w: map<int, int>, n: nat): map<int, int> { map o | o in w && o + 4 <= n :: w[o] }

  predicate Writable(b: Book, k: nat, o: int)
  {
    Fits(b) && k < |b.slots| && b.slots[k] != 0 && 0 <= o && o % 4 == 0 && o + 4 <= b.sizes[k]
  }

  function SetSlot(b: Book, k: nat, r: int, n: nat, w: map<int, int>): (b2: Book)
    requires Fits(b) && k < |b.slots|
    ensures Fits(b2) && |b2.slots| == |b.slots|
  {
    Book(b.slots[k := r], b.sizes[k := n], b.want[k := w])
  }

  /** A call on independent arrays, given the pointer that the allocator returned. */
  function Note(b: Book, c: Call, r: int): (b2: Book)
    requires Fits(b)
    ensures Fits(b2) && |b2.slots| == |b.slots|
  {
    match c
    case Malloc(k, n) => if k < |b.slots| && b.slots[k] == 0 && r != 0 then b.(slots := b.slots[k := r], sizes := b.sizes[k := n]) else b
    case Memalign(k, _, n) => if k < |b.slots| && b.slots[k] == 0 && r != 0 then b.(slots := b.slots[k := r], sizes := b.sizes[k := n]) else b
    case Free(k) => if k < |b.slots| then SetSlot(b, k, 0, 0, map[]) else b
    case Realloc(k, n) => if k < |b.slots| && r != 0 then SetSlot(b, k, r, n, Kept(b.want[k], n)) else b
    case Trim(_) => b
    case Store(k, o, v) => if Writable(b, k, o) then b.(want := b.want[k := b.want[k][o := v]]) else b
  }

  function After(b: Book, calls: seq<Call>, rs: seq<int>): (b2: Book)
    requires Fits(b) && |calls| == |rs|
    ensures Fits(b2)
  {
    if calls == [] then b else Note(After(b, calls[..|calls| - 1], rs[..|rs| - 1]), calls[|calls| - 1], rs[|rs| - 1])
  }

  /** What is returned as long as sbrk does not refuse: never null for a request that is not negative
      as a long. */
  ghost predicate Answered(b: Book, c: Call, r: int)
  {
    match c
    case Malloc(k, n) => k < |b.slots| && b.slots[k] == 0 && AsLong(n) >= 0 ==> r != 0
    case Realloc(k, n) => k < |b.slots| && AsLong(n) >= 0 ==> r != 0
    case Memalign(k, a, n) =>
      k < |b.slots| && b.slots[k] == 0 && n < TWO32 && AsLong(n) >= 0 ==>
        a > 0 && r % a == 0 && (r != 0 || (a > ALIGNMENT && AsLong(SpotRequest(Request2Size(n), a)) < 0))
    case _ => true
  }

  /** Requests and pads that no computation in 32 bits carries past its limits. */
  ghost predicate Sensible(c: Call)
  {
    match c
    case Malloc(_, n) => n < TWO32 && PaddingFits(n)
    case Realloc(_, n) => RoomFits(n)
    case Trim(pad) => pad + MINSIZE < TWO31
    case Memalign(_, a, n) => n < TWO32 && PaddingFits(n) && IsPower2(a) && a < TWO32 && (a > ALIGNMENT && AsLong(n) >= 0 ==> SpotAvailable(Request2Size(n), a))
    case _ => true
  }

  ghost predicate AllAnswered(b: Book, calls: seq<Call>, rs: seq<int>)
    requires Fits(b) && |rs| <= |calls|
  {
    forall i :: 0 <= i < |rs| ==> Answered(After(b, calls[..i], rs[..i]), calls[i], rs[i])
  }

  lemma OneMoreAnswered(b: Book, calls: seq<Call>, rs: seq<int>, r: int)
    requires Fits(b) && |rs| < |calls| && AllAnswered(b, calls, rs) && Answered(After(b, calls[..|rs|], rs), calls[|rs|], r)
    ensures AllAnswered(b, calls, rs + [r])
  {
    hide Answered;
    var rs2 := rs + [r];
    forall i | 0 <= i < |rs2| ensures Answered(After(b, calls[..i], rs2[..i]), calls[i], rs2[i]) { assert rs2[..i] == rs[..i]; }
  }

  // ---- the book agrees with the heap ----

  /** The words stored behind pointer k are there. */
  ghost predicate Stored(b: Book, m: Mem, k: int)
    requires Fits(b) && 0 <= k < |b.slots|
  {
    forall o {:trigger o in b.want[k]} :: o in b.want[k] ==> Writable(b, k, o) && m[b.slots[k] + o] == b.want[k][o]
  }

  ghost predicate SlotOk(b: Book, m: Mem, live: LiveMap, k: int)
    requires Fits(b) && 0 <= k < |b.slots|
  {
    && Stored(b, m, k)
    && (b.slots[k] != 0 ==> b.slots[k] - 8 in live && live[b.slots[k] - 8] >= b.sizes[k] + 4)
  }

  /** The live chunks are those behind the client's pointers, one each, and they hold what the
      client stored. */
  ghost predicate Backed(b: Book, m: Mem, live: LiveMap)
  {
    && Fits(b)
    && (forall k {:trigger SlotOk(b, m, live, k)} :: 0 <= k < |b.slots| ==> SlotOk(b, m, live, k))
    && Distinct(b.slots)
    && (forall p :: p in live ==> p + 8 in b.slots && p + 8 != 0)
  }

  ghost predicate Distinct(slots: seq<int>)
  {
    forall j, k :: 0 <= j < |slots| && 0 <= k < |slots| && j != k && slots[j] != 0 ==> slots[j] != slots[k]
  }

  ghost predicate SameAt(m: Mem, m2: Mem, at: int, n: int) { forall a {:trigger m2[a]} :: at <= a < at + n ==> m2[a] == m[a] }

  lemma SameInAt(m: Mem, m2: Mem, live: LiveMap, p: int)
    requires SameIn(m, m2, live) && p in live
    ensures SameAt(m, m2, p + 8, live[p] - 4)
  {
  }

  /** A slot of one book in the place of the same slot of another, its chunk untouched. */
  lemma SlotStays(b: Book, b2: Book, m: Mem, m2: Mem, live: LiveMap, live2: LiveMap, k: int)
    requires Fits(b) && Fits(b2) && 0 <= k < |b.slots| && k < |b2.slots| && SlotOk(b, m, live, k)
    requires b2.slots[k] == b.slots[k] && b2.sizes[k] == b.sizes[k] && b2.want[k] == b.want[k]
    requires var p := b.slots[k] - 8;
             b.slots[k] != 0 ==> p in live2 && live2[p] == live[p] && SameAt(m, m2, p + 8, live[p] - 4)
    ensures SlotOk(b2, m2, live2, k)
  {
    forall o | o in b2.want[k] ensures Writable(b2, k, o) && m2[b2.slots[k] + o] == b2.want[k][o] { assert o in b.want[k] && Writable(b, k, o); }
  }

  lemma NullSlot(b: Book, m: Mem, live: LiveMap, k: int)
    requires Fits(b) && 0 <= k < |b.slots| && SlotOk(b, m, live, k) && b.slots[k] == 0
    ensures b.want[k] == map[] && b.want[k := map[]] == b.want
  {
    forall o ensures o !in b.want[k]
    {
      if o in b.want[k] { assert false; }
    }
    assert b.want[k] == map[];
  }

  lemma BackedStays(b: Book, m: Mem, m2: Mem, live: LiveMap)
    requires Backed(b, m, live) && SameIn(m, m2, live)
    ensures Backed(b, m2, live)
  {
    hide SameIn, SameAt, Stored;
    forall k {:trigger SlotOk(b, m2, live, k)} | 0 <= k < |b.slots| ensures SlotOk(b, m2, live, k)
    {
      assert SlotOk(b, m, live, k);
      if b.slots[k] != 0 { SameInAt(m, m2, live, b.slots[k] - 8); }
      SlotStays(b, b, m, m2, live, live, k);
    }
  }

  /** The words of w are stored from r on, within n bytes. */
  ghost predicate Words(m: Mem, r: int, n: nat, w: map<int, int>)
  {
    forall o :: o in w ==> 0 <= o && o % 4 == 0 && o + 4 <= n && m[r + o] == w[o]
  }

  lemma StillThere(slots: seq<int>, k: nat, r: int, x: int)
    requires k < |slots| && ((x in slots && x != slots[k]) || x == r)
    ensures x in slots[k := r]
  {
    if x == r {
      assert slots[k := r][k] == x;
    } else {
      var i :| 0 <= i < |slots| && slots[i] == x;
      assert slots[k := r][i] == x;
    }
  }

  /** A new chunk behind r for slot k, which was empty, with what the memory already holds there. */
  lemma BackedNew(b: Book, m: Mem, m2: Mem, live: LiveMap, k: nat, r: int, size: int, n: nat, w: map<int, int>)
    requires Backed(b, m, live) && SameIn(m, m2, live) && k < |b.slots| && b.slots[k] == 0
    requires r - 8 !in live && r != 0 && size >= n + 4
    requires Words(m2, r, n, w)
    ensures Backed(SetSlot(b, k, r, n, w), m2, live[r - 8 := size])
  {
    var b2, live2 := SetSlot(b, k, r, n, w), live[r - 8 := size];
    forall j {:trigger SlotOk(b2, m2, live2, j)} | 0 <= j < |b2.slots| ensures SlotOk(b2, m2, live2, j)
    {
      assert SlotOk(b, m, live, j);
      if j != k {
        if b.slots[j] != 0 { SameInAt(m, m2, live, b.slots[j] - 8); }
        SlotStays(b, b2, m, m2, live, live2, j);
      }
    }
    hide SlotOk, SameIn, SameAt;
    assert Distinct(b2.slots) by { NewIsDistinct(b, m, live, k, r); }
    forall q | q in live2 ensures q + 8 in b2.slots { StillThere(b.slots, k, r, q + 8); }
  }

  lemma NewIsDistinct(b: Book, m: Mem, live: LiveMap, k: nat, r: int)
    requires Backed(b, m, live) && k < |b.slots| && b.slots[k] == 0 && r - 8 !in live
    ensures Distinct(b.slots[k := r])
  {
    forall j | 0 <= j < |b.slots| && b.slots[j] != 0 ensures b.slots[j] != r { assert SlotOk(b, m, live, j); }
  }

  function Others(live: LiveMap, p: int): LiveMap { live - {p} }

  lemma FreedLive(live: LiveMap, live2: LiveMap, ptr: int)
    requires live2 == (if ptr == 0 then live else live - {ptr - 8}) && -8 !in live
    ensures live2 == Others(live, ptr - 8)
  {
    if ptr == 0 { assert live - {-8} == live; }
  }

  lemma BackedGone(b: Book, m: Mem, m2: Mem, live: LiveMap, k: nat, p: int, live2: LiveMap)
    requires Backed(b, m, live) && k < |b.slots| && p == b.slots[k] - 8 && live2 == Others(live, p) && SameIn(m, m2, live2)
    ensures Backed(SetSlot(b, k, 0, 0, map[]), m2, live2)
  {
    var b2 := SetSlot(b, k, 0, 0, map[]);
    forall j {:trigger SlotOk(b2, m2, live2, j)} | 0 <= j < |b2.slots| ensures SlotOk(b2, m2, live2, j)
    {
      assert SlotOk(b, m, live, j);
      if j != k {
        if b.slots[j] != 0 {
          assert b.slots[j] != b.slots[k];
          SameInAt(m, m2, live2, b.slots[j] - 8);
        }
        SlotStays(b, b2, m, m2, live, live2, j);
      }
    }
    hide SlotOk, SameIn, SameAt;
    forall q | q in live2 ensures q + 8 in b2.slots { StillThere(b.slots, k, 0, q + 8); }
  }

  lemma BackedMoved(b: Book, m: Mem, m2: Mem, live: LiveMap, live2: LiveMap, k: nat, p: int, q: int, size: int, n: nat)
    requires Backed(b, m, live) && k < |b.slots| && p == b.slots[k] - 8 && b.slots[k] != 0 && q + 8 != 0 && size >= n + 4
    requires Resized(m, m2, live, live2, p, q, size)
    ensures Backed(SetSlot(b, k, q + 8, n, Kept(b.want[k], n)), m2, live2)
  {
    hide *;
    SlotBacked(b, m, live, k);
    var w := Kept(b.want[k], n);
    var rest, b1 := Others(live, p), SetSlot(b, k, 0, 0, map[]);
    ResizedData(m, m2, live, live2, p, q, size);
    WordsAre(b, m, m2, live, k, p, q + 8, size, n);
    ResizedMaps(m, m2, live, live2, p, q, size);
    SameInRefl(m2, rest);
    BackedGone(b, m, m2, live, k, p, rest);
    SetAgain(b, k, q + 8, n, w);
    BackedNew(b1, m2, m2, rest, k, q + 8, size, n, w);
  }

  /** The same in terms of the pointers. */
  lemma BackedMovedPtr(b: Book, m: Mem, m2: Mem, live: LiveMap, live2: LiveMap, k: nat, ptr: int, r: int, size: int, n: nat)
    requires Backed(b, m, live) && k < |b.slots| && ptr == b.slots[k] && ptr != 0 && r != 0 && size >= n + 4
    requires Resized(m, m2, live, live2, ptr - 8, r - 8, size)
    ensures Backed(SetSlot(b, k, r, n, Kept(b.want[k], n)), m2, live2)
  {
    hide *;
    BackedMoved(b, m, m2, live, live2, k, ptr - 8, r - 8, size, n);
  }

  lemma SlotBacked(b: Book, m: Mem, live: LiveMap, k: nat)
    requires Backed(b, m, live) && k < |b.slots|
    ensures Fits(b) && SlotOk(b, m, live, k)
  {
  }

  lemma SetAgain(b: Book, k: nat, r: int, n: nat, w: map<int, int>)
    requires Fits(b) && k < |b.slots|
    ensures var b1 := SetSlot(b, k, 0, 0, map[]);
            b1.slots[k] == 0 && SetSlot(b1, k, r, n, w) == SetSlot(b, k, r, n, w)
  {
  }

  lemma ResizedData(m: Mem, m2: Mem, live: LiveMap, live2: LiveMap, p: int, q: int, size: int)
    requires Resized(m, m2, live, live2, p, q, size)
    ensures p in live && Carried(m, m2, p + 8, q + 8, Least(live[p], size) - 4)
  {
  }

  lemma ResizedMaps(m: Mem, m2: Mem, live: LiveMap, live2: LiveMap, p: int, q: int, size: int)
    requires Resized(m, m2, live, live2, p, q, size)
    ensures var rest := Others(live, p);
            live2 == rest[q := size] && q !in rest && SameIn(m, m2, rest)
  {
  }

  lemma MovedWordAt(b: Book, m: Mem, m2: Mem, live: LiveMap, k: nat, p: int, r: int, size: int, n: nat, o: int)
    requires Fits(b) && k < |b.slots| && SlotOk(b, m, live, k) && b.slots[k] != 0 && p == b.slots[k] - 8 && size >= n + 4
    requires p in live && Carried(m, m2, p + 8, r, Least(live[p], size) - 4) && o in Kept(b.want[k], n)
    ensures 0 <= o && o % 4 == 0 && o + 4 <= n && m2[r + o] == Kept(b.want[k], n)[o]
  {
    hide Carried;
    assert o in b.want[k] && Writable(b, k, o) && m[b.slots[k] + o] == b.want[k][o];
    CarriedAt(m, m2, p + 8, r, Least(live[p], size) - 4, o);
  }

  /** What was stored within the new size has come along. */
  lemma WordsAre(b: Book, m: Mem, m2: Mem, live: LiveMap, k: nat, p: int, r: int, size: int, n: nat)
    requires Fits(b) && k < |b.slots| && SlotOk(b, m, live, k) && b.slots[k] != 0 && p == b.slots[k] - 8 && size >= n + 4
    requires p in live && Carried(m, m2, p + 8, r, Least(live[p], size) - 4)
    ensures Words(m2, r, n, Kept(b.want[k], n))
  {
    hide SlotOk, Kept, Carried;
    forall o | o in Kept(b.want[k], n) ensures 0 <= o && o % 4 == 0 && o + 4 <= n && m2[r + o] == Kept(b.want[k], n)[o]
    {
      MovedWordAt(b, m, m2, live, k, p, r, size, n, o);
    }
  }

  lemma CarriedAt(m: Mem, m2: Mem, src: int, dst: int, n: int, o: int)
    requires Carried(m, m2, src, dst, n) && 0 <= o < n && o % 4 == 0
    ensures m2[dst + o] == m[src + o]
  {
    assert WordAligned(dst + o - dst);
  }

  ghost predicate WordSet(m: Mem, m2: Mem, a: int, v: int)
  {
    m2[a] == v && forall x :: x != a ==> m2[x] == m[x]
  }

  /** A word written behind pointer k. */
  lemma BackedWritten(b: Book, m: Mem, m2: Mem, live: LiveMap, k: nat, o: nat, v: int, p: int, a: int)
    requires Backed(b, m, live) && Writable(b, k, o) && p == b.slots[k] - 8 && a == b.slots[k] + o
    requires WordSet(m, m2, a, v) && SameIn(m, m2, Others(live, p))
    ensures Backed(Note(b, Store(k, o, v), 0), m2, live)
  {
    var b2 := b.(want := b.want[k := b.want[k][o := v]]);
    forall j {:trigger SlotOk(b2, m2, live, j)} | 0 <= j < |b2.slots| ensures SlotOk(b2, m2, live, j)
    {
      assert SlotOk(b, m, live, j);
      if j != k {
        assert b.slots[j] != 0 ==> b.slots[j] != b.slots[k];
        SlotBeside(b, b2, m, m2, live, p, j);
      } else {
        SlotWritten(b, m, m2, live, k, o, v);
      }
    }
  }

  lemma SlotBeside(b: Book, b2: Book, m: Mem, m2: Mem, live: LiveMap, p: int, j: int)
    requires Fits(b) && Fits(b2) && 0 <= j < |b.slots| && j < |b2.slots| && SlotOk(b, m, live, j)
    requires b2.slots[j] == b.slots[j] && b2.sizes[j] == b.sizes[j] && b2.want[j] == b.want[j]
    requires SameIn(m, m2, Others(live, p)) && (b.slots[j] != 0 ==> b.slots[j] != p + 8)
    ensures SlotOk(b2, m2, live, j)
  {
    if b.slots[j] != 0 { SameInAt(m, m2, Others(live, p), b.slots[j] - 8); }
    SlotStays(b, b2, m, m2, live, live, j);
  }

  lemma SlotWritten(b: Book, m: Mem, m2: Mem, live: LiveMap, k: nat, o: nat, v: int)
    requires Writable(b, k, o) && SlotOk(b, m, live, k) && WordSet(m, m2, b.slots[k] + o, v)
    ensures SlotOk(b.(want := b.want[k := b.want[k][o := v]]), m2, live, k)
  {
    var b2, w := b.(want := b.want[k := b.want[k][o := v]]), b.want[k][o := v];
    SlotIs(b, m, live, k);
    forall x | x in w ensures Writable(b, k, x) && m2[b.slots[k] + x] == w[x]
    {
      if x != o { assert x in b.want[k] && Writable(b, k, x); }
    }
    hide SlotOk, WordSet;
    assert b2.slots == b.slots && b2.sizes == b.sizes && b2.want[k] == w;
    SlotMakes(b2, m2, live, k);
  }

  lemma SlotIs(b: Book, m: Mem, live: LiveMap, k: int)
    requires Fits(b) && 0 <= k < |b.slots| && SlotOk(b, m, live, k)
    ensures Stored(b, m, k) && (b.slots[k] != 0 ==> b.slots[k] - 8 in live && live[b.slots[k] - 8] >= b.sizes[k] + 4)
  {
  }

  lemma SlotMakes(b: Book, m: Mem, live: LiveMap, k: int)
    requires Fits(b) && 0 <= k < |b.slots| && forall o :: o in b.want[k] ==> Writable(b, k, o) && m[b.slots[k] + o] == b.want[k][o]
    requires b.slots[k] != 0 ==> b.slots[k] - 8 in live && live[b.slots[k] - 8] >= b.sizes[k] + 4
    ensures SlotOk(b, m, live, k)
  {
  }

  lemma SlotFacts(b: Book, m: Mem, s: Shape, k: nat)
    requires Backed(b, m, Live(s)) && k < |b.slots|
    ensures Fits(b) && (b.slots[k] == 0 ==> b.want[k] == map[] && b.want[k := map[]] == b.want)
    ensures b.slots[k] != 0 ==> var p := b.slots[k] - 8; p in Live(s) && p in s.used && p in s.sz && s.sz[p] >= b.sizes[k] + 4
  {
    assert SlotOk(b, m, Live(s), k);
    if b.slots[k] == 0 { NullSlot(b, m, Live(s), k); }
  }

  lemma UnwantedNull(b: Book, m: Mem, live: LiveMap, k: nat)
    requires Backed(b, m, live) && k < |b.slots| && b.slots[k] == 0
    ensures b.want[k] == map[]
  {
    SlotBacked(b, m, live, k);
    NullSlot(b, m, live, k);
  }

  lemma OwnChunk(b: Book, m: Mem, s: Shape, k: nat)
    requires Backed(b, m, Live(s)) && k < |b.slots| && b.slots[k] != 0
    ensures b.slots[k] - 8 in s.used && b.slots[k] - 8 in s.sz
  {
    SlotFacts(b, m, s, k);
    hide Backed, Live;
  }

  lemma OwnPtr(b: Book, m: Mem, s: Shape, k: nat, ptr: int)
    requires Backed(b, m, Live(s)) && k < |b.slots| && ptr == b.slots[k]
    ensures ptr != 0 ==> ptr - 8 in s.used
  {
    hide Backed, Live;
    if ptr != 0 { OwnChunk(b, m, s, k); }
  }

  lemma OwnWord(b: Book, m: Mem, s: Shape, k: nat, o: nat)
    requires Backed(b, m, Live(s)) && Writable(b, k, o)
    ensures var p := b.slots[k] - 8;
            p in s.used && p in s.sz && InPayload(s.sz, p, b.slots[k] + o)
  {
    SlotFacts(b, m, s, k);
    hide Backed, Live;
  }

  lemma StoredWord(b: Book, m: Mem, live: LiveMap, k: nat, o: nat)
    requires Backed(b, m, live) && k < |b.slots| && o in b.want[k]
    ensures Writable(b, k, o) && m[b.slots[k] + o] == b.want[k][o]
  {
    SlotBacked(b, m, live, k);
    hide Backed;
  }

  lemma InsideOnly(m: Mem, m2: Mem, s: Shape, p: int, a: int, v: int)
    requires p in s.sz && InPayload(s.sz, p, a) && WordSet(m, m2, a, v)
    ensures OnlyPayload(m, m2, s, p)
  {
  }

  lemma NoteMalloc(b: Book, k: nat, n: nat, r: int)
    requires Fits(b) && k < |b.slots| && b.slots[k] == 0 && b.want[k] == map[]
    ensures Note(b, Malloc(k, n), r) == if r == 0 then b else SetSlot(b, k, r, n, map[])
  {
    assert b.want[k := map[]] == b.want;
  }

  lemma NoWords(m: Mem, r: int, n: nat)
    ensures Words(m, r, n, map[])
  {
  }

  lemma NoteRealloc(b: Book, k: nat, n: nat, r: int)
    requires Fits(b) && k < |b.slots| && (b.slots[k] == 0 ==> b.want[k] == map[])
    ensures Note(b, Realloc(k, n), r) == if r == 0 then b else SetSlot(b, k, r, n, Kept(b.want[k], n))
    ensures b.slots[k] == 0 ==> Kept(b.want[k], n) == map[]
  {
  }

  lemma NoteFree(b: Book, k: nat)
    requires Fits(b) && k < |b.slots|
    ensures Note(b, Free(k), 0) == SetSlot(b, k, 0, 0, map[])
  {
  }

  /** The book after free agrees with the heap after free. */
  lemma FreedBacks(b: Book, m: Mem, m2: Mem, s: Shape, s2: Shape, k: nat, ptr: int)
    requires Backed(b, m, Live(s)) && k < |b.slots| && ptr == b.slots[k] && SameLive(m, m2, s2)
    requires Live(s2) == if ptr == 0 then Live(s) else Live(s) - {ptr - 8}
    ensures Fits(b) && Backed(Note(b, Free(k), 0), m2, Live(s2))
  {
    hide *;
    SlotBacked(b, m, Live(s), k);
    NoNullChunk(b, m, Live(s));
    FreedLive(Live(s), Live(s2), ptr);
    SameLiveIn(m, m2, s2);
    BackedGone(b, m, m2, Live(s), k, ptr - 8, Live(s2));
    NoteFree(b, k);
  }

  // ---- the client ----

  /** A store of the client's within chunk p. */
  method WriteWord(heap: Heap, ghost p: int, a: int, v: int)
    requires heap.Valid() && p in heap.sh.used && p in heap.sh.sz && InPayload(heap.sh.sz, p, a)
    modifies heap`mem
    ensures heap.Valid() && WordSet(old(heap.mem), heap.mem, a, v) && SameIn(old(heap.mem), heap.mem, Others(Live(heap.sh), p))
  {
    hide Core, Settled, SameIn, Live, OnlyPayload;
    ghost var m0 := heap.mem;
    heap.mem := heap.mem[a := v];
    InsideOnly(m0, heap.mem, heap.sh, p, a, v);
    ClientWrites(m0, heap.mem, heap.sh, heap.binblocks, p);
  }

  /** The book after malloc agrees with the heap after malloc. */
  lemma MallocNoted(b: Book, m: Mem, m2: Mem, s: Shape, s2: Shape, blocks: bv32, k: nat, n: nat, r: int)
    requires Fits(b) && Backed(b, m, Live(s)) && k < |b.slots| && b.slots[k] == 0 && PaddingFits(n)
    requires r == 0 ==> Live(s2) == Live(s) && SameLive(m, m2, s)
    requires r != 0 ==> AsLong(n) >= 0 && r - 8 in s2.sz && Request2Size(n) <= s2.sz[r - 8] && HandedOut(m, m2, s, s2, blocks, r - 8, s2.sz[r - 8])
    ensures Backed(Note(b, Malloc(k, n), r), m2, Live(s2))
  {
    if r != 0 { PaddingHolds(n); }
    hide *;
    UnwantedNull(b, m, Live(s), k);
    NoteMalloc(b, k, n, r);
    if r == 0 {
      SameLiveIn(m, m2, s);
      BackedStays(b, m, m2, Live(s));
    } else {
      HandedOutLive(m, m2, s, s2, blocks, r - 8, s2.sz[r - 8]);
      NoWords(m2, r, n);
      BackedNew(b, m, m2, Live(s), k, r, s2.sz[r - 8], n, map[]);
    }
  }

  /** The book after realloc agrees with the heap after realloc. */
  lemma ReallocNoted(b: Book, m: Mem, m2: Mem, s: Shape, s2: Shape, blocks: bv32, k: nat, n: nat, ptr: int, r: int)
    requires Fits(b) && Backed(b, m, Live(s)) && k < |b.slots| && ptr == b.slots[k] && PaddingFits(n)
    requires r == 0 ==> Live(s2) == Live(s) && SameLive(m, m2, s)
    requires r != 0 ==> AsLong(n) >= 0 && r - 8 in s2.sz && Request2Size(n) <= s2.sz[r - 8]
    requires r != 0 && ptr == 0 ==> HandedOut(m, m2, s, s2, blocks, r - 8, s2.sz[r - 8])
    requires r != 0 && ptr != 0 ==> Resized(m, m2, Live(s), Live(s2), ptr - 8, r - 8, s2.sz[r - 8])
    ensures Backed(Note(b, Realloc(k, n), r), m2, Live(s2))
  {
    if r != 0 { PaddingHolds(n); }
    hide *;
    if ptr == 0 { UnwantedNull(b, m, Live(s), k); }
    NoteRealloc(b, k, n, r);
    if r == 0 {
      SameLiveIn(m, m2, s);
      BackedStays(b, m, m2, Live(s));
    } else {
      if ptr == 0 {
        HandedOutLive(m, m2, s, s2, blocks, r - 8, s2.sz[r - 8]);
        NoWords(m2, r, n);
        BackedNew(b, m, m2, Live(s), k, r, s2.sz[r - 8], n, map[]);
      } else {
        BackedMovedPtr(b, m, m2, Live(s), Live(s2), k, ptr, r, s2.sz[r - 8], n);
      }
    }
  }

  class Client {
    const heap: Heap
    var book: Book

    ghost predicate Consistent()
      reads this, heap
    {
      heap.Valid() && Backed(book, heap.mem, Live(heap.sh))
    }

    lemma Parts()
      requires Consistent()
      ensures heap.Valid() && Fits(book) && Backed(book, heap.mem, Live(heap.sh))
    {
      hide Heap.Valid;
    }

    constructor (heap: Heap, n: nat)
      requires heap.Valid() && Live(heap.sh) == map[]
      ensures Consistent() && this.heap == heap && book == Book(seq(n, _ => 0), seq(n, _ => 0), seq(n, _ => map[]))
    {
      this.heap := heap;
      book := Book(seq(n, _ => 0), seq(n, _ => 0), seq(n, _ => map[]));
    }

    /** A free slot gets a pointer, or null when the break could not be moved. */
    method DoMalloc(k: nat, n: nat) returns (r: int)
      requires Consistent() && k < |book.slots| && book.slots[k] == 0 && n < TWO32 && PaddingFits(n)
      modifies heap
      ensures heap.Valid() && Fits(book)
      ensures Backed(Note(book, Malloc(k, n), r), heap.mem, Live(heap.sh))
      ensures heap.refusals >= old(heap.refusals) && (r == 0 ==> AsLong(n) < 0 || heap.refusals > old(heap.refusals))
    {
      ghost var m0, s0 := heap.mem, heap.sh;
      hide *;
      Parts();
      ghost var origin;
      r, origin := heap.Malloc(n);
      MallocNoted(book, m0, heap.mem, s0, heap.sh, heap.binblocks, k, n, r);
    }

    method DoMemalign(k: nat, a: nat, n: nat) returns (r: int)
      requires Consistent() && k < |book.slots| && book.slots[k] == 0 && Sensible(Memalign(k, a, n))
      modifies heap
      ensures heap.Valid() && Fits(book)
      ensures Backed(Note(book, Memalign(k, a, n), r), heap.mem, Live(heap.sh))
      ensures heap.refusals >= old(heap.refusals) && (heap.refusals == old(heap.refusals) ==> Answered(book, Memalign(k, a, n), r))
    {
      ghost var m0, s0 := heap.mem, heap.sh;
      Power2Facts(a);
      hide Backed, Live, SameIn, Core, Settled, IsPower2;
      SlotFacts(book, m0, s0, k);
      r := heap.Memalign(a, n);
      if r != 0 {
        PaddingHolds(n);
        BackedNew(book, m0, heap.mem, Live(s0), k, r, heap.sh.sz[r - 8], n, map[]);
      } else {
        BackedStays(book, m0, heap.mem, Live(s0));
      }
    }

    method DoFree(k: nat)
      requires Consistent() && k < |book.slots|
      modifies heap
      ensures heap.Valid() && Fits(book)
      ensures Backed(Note(book, Free(k), 0), heap.mem, Live(heap.sh))
      ensures heap.refusals >= old(heap.refusals)
    {
      hide *;
      Parts();
      ghost var m0, s0 := heap.mem, heap.sh;
      var ptr := book.slots[k];
      if ptr != 0 { OwnChunk(book, m0, s0, k); }
      heap.Free(ptr);
      FreedBacks(book, m0, heap.mem, s0, heap.sh, k, ptr);
    }

    /** A size that realloc can be asked for in any state overruns in none. */
    lemma RoomKept(ptr: int, n: nat)
      requires RoomFits(n)
      ensures n < TWO32 && PaddingFits(n) && heap.Withstands(ptr, n)
    {
      if AsLong(n) >= 0 { RoomWraps(n); }
      hide PaddingFits, Request2Size;
    }

    method DoRealloc(k: nat, n: nat) returns (r: int)
      requires Consistent() && k < |book.slots| && RoomFits(n)
      modifies heap
      ensures heap.Valid() && Fits(book)
      ensures Backed(Note(book, Realloc(k, n), r), heap.mem, Live(heap.sh))
      ensures heap.refusals >= old(heap.refusals) && (r == 0 ==> AsLong(n) < 0 || heap.refusals > old(heap.refusals))
    {
      ghost var m0, s0 := heap.mem, heap.sh;
      hide *;
      Parts();
      var ptr := book.slots[k];
      OwnPtr(book, m0, s0, k, ptr);
      RoomKept(ptr, n);
      r := heap.Realloc(ptr, n);
      ReallocNoted(book, m0, heap.mem, s0, heap.sh, heap.binblocks, k, n, ptr, r);
    }

    method DoTrim(pad: nat)
      requires Consistent() && pad + MINSIZE < TWO31
      modifies heap
      ensures heap.Valid() && Backed(book, heap.mem, Live(heap.sh))
      ensures heap.refusals >= old(heap.refusals)
    {
      ghost var m0 := heap.mem;
      hide Backed, Live, SameIn, SameLive, Core, Settled;
      ghost var s0 := heap.sh;
      heap.TopInRange(0);
      var released := heap.Trim(pad);
      SameLiveIn(m0, heap.mem, heap.sh);
      BackedStays(book, m0, heap.mem, Live(s0));
    }

    /** The client writes a word of its own. */
    method DoStore(k: nat, o: nat, v: int)
      requires Consistent() && Writable(book, k, o)
      modifies heap`mem
      ensures heap.Valid() && Fits(book)
      ensures Backed(Note(book, Store(k, o, v), 0), heap.mem, Live(heap.sh))
    {
      ghost var m0, s0 := heap.mem, heap.sh;
      hide *;
      Parts();
      OwnWord(book, m0, s0, k, o);
      var a := book.slots[k] + o;
      ghost var p := book.slots[k] - 8;
      WriteWord(heap, p, a, v);
      BackedWritten(book, m0, heap.mem, Live(s0), k, o, v, p, a);
    }

    /** The client reads a word it has stored. */
    method Load(k: nat, o: nat) returns (v: int)
      requires Consistent() && k < |book.slots| && o in book.want[k]
      ensures v == book.want[k][o]
    {
      hide *;
      Parts();
      StoredWord(book, heap.mem, Live(heap.sh), k, o);
      v := heap.mem[book.slots[k] + o];
    }

    /** One call; those on a slot that does not admit them are not made. */
    method Do(c: Call) returns (r: int)
      requires Consistent() && Sensible(c)
      modifies this`book, heap
      ensures Consistent() && book == Note(old(book), c, r)
      ensures heap.refusals >= old(heap.refusals) && (heap.refusals == old(heap.refusals) ==> Answered(old(book), c, r))
    {
      assert Fits(book);
      hide Backed, Live, Core, Settled;
      r := 0;
      match c {
        case Malloc(k, n) => if k < |book.slots| && book.slots[k] == 0 { r := DoMalloc(k, n); }
        case Memalign(k, a, n) => if k < |book.slots| && book.slots[k] == 0 { r := DoMemalign(k, a, n); }
        case Free(k) => if k < |book.slots| { DoFree(k); }
        case Realloc(k, n) => if k < |book.slots| { r := DoRealloc(k, n); }
        case Trim(pad) => DoTrim(pad);
        case Store(k, o, v) => if Writable(book, k, o) { DoStore(k, o, v); }
      }
      book := Note(book, c, r);
    }

    /** Any calls in any order leave the heap well-formed, its live chunks those of the client, and
        in them what a client of independent arrays would find, given the same pointers. Unless sbrk
        refuses, every request is met. */
    method Run(calls: seq<Call>) returns (rs: seq<int>)
      requires Consistent() && forall i :: 0 <= i < |calls| ==> Sensible(calls[i])
      modifies this`book, heap
      ensures Consistent() && |rs| == |calls| && Fits(old(book)) && book == After(old(book), calls, rs)
      ensures heap.refusals == old(heap.refusals) ==> AllAnswered(old(book), calls, rs)
    {
      rs := [];
      assert calls[..0] == [];
      for i := 0 to |calls|
        invariant Consistent() && |rs| == i && Fits(old(book)) && book == After(old(book), calls[..i], rs) && heap.refusals >= old(heap.refusals)
        invariant heap.refusals == old(heap.refusals) ==> AllAnswered(old(book), calls, rs)
      {
        hide Backed, Live, Sensible, Core, Settled, Answered, AllAnswered;
        var r := Do(calls[i]);
        assert calls[..i + 1][..i] == calls[..i] && (rs + [r])[..i] == rs;
        if heap.refusals == old(heap.refusals) { OneMoreAnswered(old(book), calls, rs, r); }
        rs := rs + [r];
      }
      assert calls[..|calls|] == calls;
    }
  }

  lemma NoNullChunk(b: Book, m: Mem, live: LiveMap)
    requires Backed(b, m, live)
    ensures -8 !in live
  {
    if -8 in live { assert false; }
  }
}
