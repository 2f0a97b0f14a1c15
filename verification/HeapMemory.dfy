/** The arena as words of memory: how the size words, feet and list links of a memory
    represent a shape, and what each of the allocator's writes does to that. Memory is a total
    map from byte address to the word stored there; user data shares it with the tags. */
module HeapMemory {
  import opened HeapSizes
  import opened HeapShape

  type Mem = m: imap<int, int> | forall a :: a in m ghost witness imap a: int | true :: 0

  // Offsets inside struct malloc_chunk.
  const SIZE := 4
  const FD := 8
  const BK := 12

  function BinAt(i: int): int { 8 * i }

  /** set_inuse_bit: x | PREV_INUSE */
  function WithPrevInUse(x: int): int
  {
    if x % 2 == 0 then x + 1 else x
  }

  /** The PREV_INUSE bit p's size word must carry. */
  ghost function PrevInUse(s: Shape, p: int): int
  {
    if p != s.base && p in s.prv && s.prv[p] !in s.used then 0 else 1
  }

  ghost predicate Heads(m: Mem, s: Shape)
  {
    forall p {:trigger p in s.sz} :: p in s.sz ==> m[p + SIZE] == s.sz[p] + PrevInUse(s, p)
  }

  ghost predicate Feet(m: Mem, s: Shape)
  {
    forall p {:trigger p in s.at} :: p in s.at ==> p in s.sz && m[p + s.sz[p]] == s.sz[p]
  }

  /** Position j of the circular list with header h and members l; the header sits at -1 and |l|. */
  ghost function Node(l: seq<int>, h: int, j: int): int
  {
    if 0 <= j < |l| then l[j] else h
  }

  ghost predicate Joined(m: Mem, a: int, b: int)
  {
    m[a + FD] == b && m[b + BK] == a
  }

  /** The circular doubly linked list with header h and members l. */
  ghost predicate Ring(m: Mem, l: seq<int>, h: int)
  {
    forall j, k {:trigger Node(l, h, j), Node(l, h, k)} :: -1 <= j < |l| && k == j + 1 ==>
      Joined(m, Node(l, h, j), Node(l, h, k))
  }

  ghost predicate Rings(m: Mem, bins: seq<seq<int>>)
  {
    forall i :: 1 <= i < |bins| ==> Ring(m, bins[i], BinAt(i))
  }

  /** A clear bit of binblocks means its four bins are empty. */
  ghost predicate Marks(blocks: bv32, bins: seq<seq<int>>)
  {
    |bins| == NAV && forall i :: 2 <= i < NAV && bins[i] != [] ==> Marked(blocks, i / 4)
  }

  ghost predicate Core(m: Mem, s: Shape, blocks: bv32)
  {
    Tiled(s) && Placed(s) && Heads(m, s) && Feet(m, s) && Rings(m, s.bins) && Marks(blocks, s.bins)
  }

  /** m2 agrees with m on every foot and every list link of s. */
  ghost predicate Quiet(m: Mem, m2: Mem, s: Shape)
  {
    && (forall a :: 16 <= a < BINS_END ==> m2[a] == m[a])
    && (forall q :: q in s.at ==> q in s.sz && m2[q + s.sz[q]] == m[q + s.sz[q]] && m2[q + FD] == m[q + FD] && m2[q + BK] == m[q + BK])
  }

  lemma QuietKeepsRing(m: Mem, m2: Mem, s: Shape, i: int)
    requires Placed(s) && Quiet(m, m2, s) && 1 <= i < NAV && Ring(m, s.bins[i], BinAt(i))
    ensures Ring(m2, s.bins[i], BinAt(i))
  {
    hide BinIndex;
  }

  lemma QuietKeepsLists(m: Mem, m2: Mem, s: Shape)
    requires Placed(s) && Quiet(m, m2, s) && Feet(m, s) && Rings(m, s.bins)
    ensures Feet(m2, s) && Rings(m2, s.bins)
  {
    forall i | 1 <= i < |s.bins| ensures Ring(m2, s.bins[i], BinAt(i)) { QuietKeepsRing(m, m2, s, i); }
    hide Ring, BinIndex;
  }

  // ---- unlink ----

  function UnlinkWrites(m: Mem, p: int): Mem
  {
    var bk, fd := m[p + BK], m[p + FD];
    m[fd + BK := bk][bk + FD := fd]
  }

  /** Members and header are distinct and 8-aligned, so their link words are distinct too. */
  ghost predicate Spaced(l: seq<int>, h: int)
  {
    && h % 8 == 0 && (forall j :: 0 <= j < |l| ==> l[j] % 8 == 0 && l[j] != h)
    && (forall j, k :: 0 <= j < k < |l| ==> l[j] != l[k])
  }

  lemma LinkWordsDiffer(x: int, y: int)
    requires x % 8 == 0 && y % 8 == 0
    ensures x + FD != y + BK
  {
  }

  lemma UnlinkReadsBy(m: Mem, p: int, x: int)
    requires x + FD != m[p + FD] + BK && x + BK != m[p + BK] + FD
    ensures UnlinkWrites(m, p)[x + FD] == if x == m[p + BK] then m[p + FD] else m[x + FD]
    ensures UnlinkWrites(m, p)[x + BK] == if x == m[p + FD] then m[p + BK] else m[x + BK]
  {
  }

  lemma UnlinkReads(m: Mem, p: int, x: int)
    requires m[p + FD] % 8 == 0 && m[p + BK] % 8 == 0 && x % 8 == 0
    ensures UnlinkWrites(m, p)[x + FD] == if x == m[p + BK] then m[p + FD] else m[x + FD]
    ensures UnlinkWrites(m, p)[x + BK] == if x == m[p + FD] then m[p + BK] else m[x + BK]
  {
    hide UnlinkWrites;
    LinkWordsDiffer(x, m[p + FD]);
    LinkWordsDiffer(m[p + BK], x);
    UnlinkReadsBy(m, p, x);
  }

  lemma NodesDiffer(l: seq<int>, h: int, a: int, b: int)
    requires Spaced(l, h) && -1 <= a < b < |l|
    ensures Node(l, h, a) != Node(l, h, b)
  {
  }

  /** Neighbours on the list other than the removed chunk's own stay joined. */
  lemma UnlinkJoinFar(m: Mem, l: seq<int>, h: int, j: nat, c: int)
    requires Ring(m, l, h) && Spaced(l, h) && j < |l| && -1 <= c < |l| && c != j && c != j - 1
    ensures Joined(UnlinkWrites(m, l[j]), Node(l, h, c), Node(l, h, c + 1))
  {
    assert Joined(m, Node(l, h, j - 1), Node(l, h, j)) && Joined(m, Node(l, h, j), Node(l, h, j + 1));
    assert Joined(m, Node(l, h, c), Node(l, h, c + 1));
    if c < j - 1 { NodesDiffer(l, h, c, j - 1); } else { NodesDiffer(l, h, j - 1, c); }
    if c < j - 1 { NodesDiffer(l, h, c, j); } else { NodesDiffer(l, h, j, c); }
    hide Ring;
    UnlinkReads(m, l[j], Node(l, h, c));
    UnlinkReads(m, l[j], Node(l, h, c + 1));
    hide UnlinkWrites;
  }

  lemma UnlinkJoinHere(m: Mem, p: int, bk: int, fd: int)
    requires Joined(m, bk, p) && Joined(m, p, fd) && bk % 8 == 0 && fd % 8 == 0
    ensures Joined(UnlinkWrites(m, p), bk, fd)
  {
    UnlinkReads(m, p, bk);
    UnlinkReads(m, p, fd);
    hide UnlinkWrites;
  }

  lemma RemovedNode(l: seq<int>, h: int, j: nat, a: int)
    requires j < |l| && -1 <= a < |l|
    ensures Node(Remove(l, j), h, a) == Node(l, h, if a < j then a else a + 1)
  {
  }

  lemma UnlinkJoin(m: Mem, l: seq<int>, h: int, j: nat, a: int)
    requires Ring(m, l, h) && Spaced(l, h) && j < |l| && -1 <= a < |l| - 1
    ensures var t := Remove(l, j);
            Joined(UnlinkWrites(m, l[j]), Node(t, h, a), Node(t, h, a + 1))
  {
    assert Joined(m, Node(l, h, j - 1), Node(l, h, j)) && Joined(m, Node(l, h, j), Node(l, h, j + 1));
    assert l[j] == Node(l, h, j);
    RemovedNode(l, h, j, a);
    RemovedNode(l, h, j, a + 1);
    hide Ring, Joined, UnlinkWrites, Remove;
    if a < j - 1 {
      UnlinkJoinFar(m, l, h, j, a);
    } else if a >= j {
      UnlinkJoinFar(m, l, h, j, a + 1);
    } else {
      UnlinkJoinHere(m, l[j], Node(l, h, j - 1), Node(l, h, j + 1));
    }
  }

  lemma UnlinkRing(m: Mem, l: seq<int>, h: int, j: nat)
    requires Ring(m, l, h) && Spaced(l, h) && j < |l|
    ensures Ring(UnlinkWrites(m, l[j]), Remove(l, j), h)
  {
    var t := Remove(l, j);
    forall a, b {:trigger Node(t, h, a), Node(t, h, b)} | -1 <= a < |t| && b == a + 1
      ensures Joined(UnlinkWrites(m, l[j]), Node(t, h, a), Node(t, h, b))
    { UnlinkJoin(m, l, h, j, a); }
  }

  // ---- which words a list node owns ----

  ghost predicate IsNode(s: Shape, x: int)
  {
    IsFree(s, x) || (8 <= x <= 1016 && x % 8 == 0)
  }

  /** User data of chunk q: everything past its size word up to the next chunk's size word. */
  ghost predicate InPayload(sz: Sizes, q: int, a: int)
    requires q in sz
  {
    q + 8 <= a < q + sz[q] + 4
  }

  /** The payload of every chunk in use is the same in both memories. */
  ghost predicate SameLive(m: Mem, m2: Mem, s: Shape)
  {
    forall q, a :: q in s.used && q in s.sz && InPayload(s.sz, q, a) ==> m2[a] == m[a]
  }

  /** The two link words of a node are no size word, no foot and no user data. */
  lemma NodeWordsPrivate(s: Shape, x: int, q: int)
    requires Tiled(s) && IsNode(s, x) && q in s.sz
    ensures x + BK != q + SIZE && x + FD != q + SIZE
    ensures q != s.top ==> x + FD != Next(s.sz, q) && x + BK != Next(s.sz, q)
    ensures q in s.used ==> !InPayload(s.sz, q, x + FD) && !InPayload(s.sz, q, x + BK)
  {
    assert Legal(q, s.sz[q]);
    if IsFree(s, x) { assert Legal(x, s.sz[x]); }
    hide Linked;
  }

  /** Nodes keep their link words apart. */
  lemma NodesApart(s: Shape, x: int, y: int)
    requires Tiled(s) && IsNode(s, x) && IsNode(s, y) && x != y
    ensures x + FD != y + BK && x + FD != y + FD && x + BK != y + BK
    ensures x % 8 == 0
  {
    if IsFree(s, x) { assert Legal(x, s.sz[x]); }
    if IsFree(s, y) { assert Legal(y, s.sz[y]); }
    hide Linked;
  }

  /** m2 differs from m at most in the link words of nodes x, y and z. */
  ghost predicate OnlyLinks(m: Mem, m2: Mem, x: int, y: int, z: int)
  {
    forall a :: a != x + FD && a != x + BK && a != y + FD && a != y + BK && a != z + FD && a != z + BK ==> m2[a] == m[a]
  }

  lemma LinkWritesMiss(m: Mem, m2: Mem, s: Shape, x: int, y: int, z: int, q: int)
    requires Tiled(s) && IsNode(s, x) && IsNode(s, y) && IsNode(s, z) && OnlyLinks(m, m2, x, y, z) && q in s.sz
    ensures m2[q + SIZE] == m[q + SIZE]
    ensures q != s.top ==> m2[Next(s.sz, q)] == m[Next(s.sz, q)]
    ensures q in s.used ==> forall a :: InPayload(s.sz, q, a) ==> m2[a] == m[a]
  {
    NodeWordsPrivate(s, x, q);
    NodeWordsPrivate(s, y, q);
    NodeWordsPrivate(s, z, q);
    hide Tiled, IsNode;
  }

  lemma LinkWritesFrame(m: Mem, m2: Mem, s: Shape, x: int, y: int, z: int)
    requires Tiled(s) && Placed(s) && IsNode(s, x) && IsNode(s, y) && IsNode(s, z) && OnlyLinks(m, m2, x, y, z)
    requires Heads(m, s) && Feet(m, s)
    ensures Heads(m2, s) && Feet(m2, s) && SameLive(m, m2, s)
  {
    hide Tiled, IsNode, OnlyLinks, BinIndex;
    forall q | q in s.sz ensures m2[q + SIZE] == m[q + SIZE] { LinkWritesMiss(m, m2, s, x, y, z, q); }
    forall q | q in s.at ensures q in s.sz && m2[q + s.sz[q]] == s.sz[q]
    {
      assert Homed(s, q) && Next(s.sz, q) == q + s.sz[q];
      LinkWritesMiss(m, m2, s, x, y, z, q);
    }
    forall q, a | q in s.used && q in s.sz && InPayload(s.sz, q, a) ensures m2[a] == m[a]
    { LinkWritesMiss(m, m2, s, x, y, z, q); }
  }

  lemma NodeUntouched(m: Mem, m2: Mem, s: Shape, x: int, y: int, z: int, n: int)
    requires Tiled(s) && IsNode(s, x) && IsNode(s, y) && IsNode(s, z) && IsNode(s, n) && OnlyLinks(m, m2, x, y, z)
    requires n != x && n != y && n != z
    ensures m2[n + FD] == m[n + FD] && m2[n + BK] == m[n + BK]
  {
    hide Tiled, IsNode;
    NodesApart(s, n, x);
    NodesApart(s, n, y);
    NodesApart(s, n, z);
    NodesApart(s, x, n);
    NodesApart(s, y, n);
    NodesApart(s, z, n);
  }

  lemma LinkWritesOtherRing(m: Mem, m2: Mem, s: Shape, x: int, y: int, z: int, l: seq<int>, h: int)
    requires Tiled(s) && IsNode(s, x) && IsNode(s, y) && IsNode(s, z) && OnlyLinks(m, m2, x, y, z)
    requires Ring(m, l, h) && IsNode(s, h) && h != x && h != y && h != z
    requires forall j :: 0 <= j < |l| ==> IsNode(s, l[j]) && l[j] != x && l[j] != y && l[j] != z
    ensures Ring(m2, l, h)
  {
    hide Tiled, IsNode, OnlyLinks;
    forall j, k {:trigger Node(l, h, j), Node(l, h, k)} | -1 <= j < |l| && k == j + 1
      ensures Joined(m2, Node(l, h, j), Node(l, h, k))
    {
      assert Joined(m, Node(l, h, j), Node(l, h, k));
      NodeUntouched(m, m2, s, x, y, z, Node(l, h, j));
      NodeUntouched(m, m2, s, x, y, z, Node(l, h, k));
    }
  }

  // ---- taking a chunk off its list ----

  lemma BinIsSpaced(s: Shape, i: int)
    requires Tiled(s) && Placed(s) && 1 <= i < NAV
    ensures Spaced(s.bins[i], BinAt(i)) && IsNode(s, BinAt(i)) && 8 <= BinAt(i) <= 1016
    ensures forall j :: 0 <= j < |s.bins[i]| ==> IsFree(s, s.bins[i][j]) && s.bins[i][j] in s.at && s.at[s.bins[i][j]] == i
    ensures forall j :: 0 <= j < |s.bins[i]| ==> BINS_END <= s.bins[i][j]
  {
    hide Linked, Apart, BinIndex;
    assert Members(s.at, s.bins[i], i) && Descending(s.sz, s.bins[i]);
    forall j | 0 <= j < |s.bins[i]| ensures IsFree(s, s.bins[i][j]) && Legal(s.bins[i][j], s.sz[s.bins[i][j]])
    {
      assert Homed(s, s.bins[i][j]);
    }
  }

  /** Rings of different bins have no node in common. */
  lemma OtherBinMisses(s: Shape, i: int, k: int, x: int)
    requires Tiled(s) && Placed(s) && 1 <= i < NAV && 1 <= k < NAV && i != k
    requires x == BinAt(i) || x in s.bins[i] || IsLoose(s, x)
    ensures x != BinAt(k) && x !in s.bins[k]
  {
    BinIsSpaced(s, i);
    BinIsSpaced(s, k);
    if IsLoose(s, x) { assert Legal(x, s.sz[x]); }
    hide Tiled, Placed;
  }

  lemma LinkWritesOtherBins(m: Mem, m2: Mem, s: Shape, x: int, y: int, z: int, i: int, k: int)
    requires Tiled(s) && Placed(s) && Rings(m, s.bins) && OnlyLinks(m, m2, x, y, z)
    requires 1 <= i < NAV && 1 <= k < NAV && i != k
    requires x == BinAt(i) || x in s.bins[i] || IsLoose(s, x)
    requires y == BinAt(i) || y in s.bins[i] || IsLoose(s, y)
    requires z == BinAt(i) || z in s.bins[i] || IsLoose(s, z)
    ensures Ring(m2, s.bins[k], BinAt(k))
  {
    OtherBinMisses(s, i, k, x);
    OtherBinMisses(s, i, k, y);
    OtherBinMisses(s, i, k, z);
    BinIsSpaced(s, i);
    BinIsSpaced(s, k);
    assert Ring(m, s.bins[k], BinAt(k));
    hide Tiled, Placed, Ring, OnlyLinks;
    LinkWritesOtherRing(m, m2, s, x, y, z, s.bins[k], BinAt(k));
  }

  lemma UnlinkOnly(m: Mem, l: seq<int>, h: int, j: nat)
    requires Ring(m, l, h) && j < |l|
    ensures var b, f := Node(l, h, j - 1), Node(l, h, j + 1); OnlyLinks(m, UnlinkWrites(m, l[j]), b, f, f)
  {
    assert Joined(m, Node(l, h, j - 1), Node(l, h, j)) && Joined(m, Node(l, h, j), Node(l, h, j + 1));
  }

  lemma UnlinkRings(m: Mem, s: Shape, i: int, j: nat)
    requires Tiled(s) && Placed(s) && Rings(m, s.bins) && 1 <= i < NAV && j < |s.bins[i]|
    ensures Rings(UnlinkWrites(m, s.bins[i][j]), UnbinAt(s, i, j).bins)
    ensures var b, f := Node(s.bins[i], BinAt(i), j - 1), Node(s.bins[i], BinAt(i), j + 1);
            OnlyLinks(m, UnlinkWrites(m, s.bins[i][j]), b, f, f) && IsNode(s, b) && IsNode(s, f)
  {
    var p, h, l := s.bins[i][j], BinAt(i), s.bins[i];
    var m2, t := UnlinkWrites(m, p), UnbinAt(s, i, j);
    var b, f := Node(l, h, j - 1), Node(l, h, j + 1);
    BinIsSpaced(s, i);
    assert Ring(m, l, h);
    UnlinkOnly(m, l, h, j);
    UnlinkRing(m, l, h, j);
    assert |s.bins| == NAV;
    hide Tiled, Placed, Ring, OnlyLinks, UnlinkWrites, Spaced, Remove, IsNode, Joined, Node;
    forall k | 1 <= k < |t.bins| ensures Ring(m2, t.bins[k], BinAt(k))
    {
      if k != i { LinkWritesOtherBins(m, m2, s, b, f, f, i, k); }
    }
  }

  lemma MarksAfterRemove(blocks: bv32, bins: seq<seq<int>>, i: nat, j: nat)
    requires Marks(blocks, bins) && i < NAV && j < |bins[i]|
    ensures Marks(blocks, bins[i := Remove(bins[i], j)])
  {
  }

  lemma ListsOnlyChange(m: Mem, s: Shape, t: Shape)
    requires t.sz == s.sz && t.used == s.used && t.prv == s.prv && t.base == s.base && t.top == s.top
    ensures Tiled(s) ==> Tiled(t)
    ensures Heads(m, s) ==> Heads(m, t)
    ensures Feet(m, s) && t.at.Keys <= s.at.Keys ==> Feet(m, t)
  {
    hide Bounded, Linked, Apart;
  }

  /** unlink keeps the heap well formed, the chunk now loose, and touches no user data. */
  lemma UnlinkCore(m: Mem, s: Shape, blocks: bv32, i: int, j: nat)
    requires Core(m, s, blocks) && 1 <= i < NAV && j < |s.bins[i]|
    ensures Core(UnlinkWrites(m, s.bins[i][j]), UnbinAt(s, i, j), blocks)
    ensures SameLive(m, UnlinkWrites(m, s.bins[i][j]), s)
    ensures IsLoose(UnbinAt(s, i, j), s.bins[i][j])
  {
    var m2, t := UnlinkWrites(m, s.bins[i][j]), UnbinAt(s, i, j);
    var b, f := Node(s.bins[i], BinAt(i), j - 1), Node(s.bins[i], BinAt(i), j + 1);
    assert t.at.Keys <= s.at.Keys && |s.bins| == NAV;
    hide Tiled, Placed, Heads, Feet, Rings, Marks, OnlyLinks, UnlinkWrites, IsNode, IsLoose, SameLive, Node, Remove;
    UnlinkRings(m, s, i, j);
    UnbinKeepsPlacing(s, i, j);
    MarksAfterRemove(blocks, s.bins, i, j);
    LinkWritesFrame(m, m2, s, b, f, f);
    ListsOnlyChange(m2, s, t);
  }

  // ---- putting a chunk on a list ----

  /** The four link writes of frontlink and link_last_remainder. */
  function LinkWrites(m: Mem, p: int, bk: int, fd: int): Mem
  {
    m[p + BK := bk][p + FD := fd][fd + BK := p][bk + FD := p]
  }

  lemma LinkReads(m: Mem, p: int, bk: int, fd: int, x: int)
    requires p % 8 == 0 && bk % 8 == 0 && fd % 8 == 0 && x % 8 == 0 && p != bk && p != fd
    ensures LinkWrites(m, p, bk, fd)[x + FD] == if x == bk then p else if x == p then fd else m[x + FD]
    ensures LinkWrites(m, p, bk, fd)[x + BK] == if x == fd then p else if x == p then bk else m[x + BK]
  {
    hide LinkWrites;
    LinkWordsDiffer(x, fd);
    LinkWordsDiffer(x, p);
    LinkWordsDiffer(bk, x);
    LinkWordsDiffer(p, x);
    LinkReadsBy(m, p, bk, fd, x);
  }

  lemma LinkReadsBy(m: Mem, p: int, bk: int, fd: int, x: int)
    requires x + FD != fd + BK && x + FD != p + BK && x + BK != bk + FD && x + BK != p + FD && p != bk && p != fd
    ensures LinkWrites(m, p, bk, fd)[x + FD] == if x == bk then p else if x == p then fd else m[x + FD]
    ensures LinkWrites(m, p, bk, fd)[x + BK] == if x == fd then p else if x == p then bk else m[x + BK]
  {
  }

  lemma LinkJoinFar(m: Mem, l: seq<int>, h: int, j: nat, p: int, c: int)
    requires Ring(m, l, h) && Spaced(l, h) && j <= |l| && p % 8 == 0 && p != h && p !in l && -1 <= c < |l| && c != j - 1
    ensures Joined(LinkWrites(m, p, Node(l, h, j - 1), Node(l, h, j)), Node(l, h, c), Node(l, h, c + 1))
  {
    var x, y, b, f := Node(l, h, c), Node(l, h, c + 1), Node(l, h, j - 1), Node(l, h, j);
    assert Joined(m, x, y);
    if c < j - 1 { NodesDiffer(l, h, c, j - 1); } else { NodesDiffer(l, h, j - 1, c); }
    LinkReads(m, p, b, f, x);
    LinkReads(m, p, b, f, y);
    hide LinkWrites, Ring;
  }

  lemma LinkJoinHere(m: Mem, p: int, bk: int, fd: int)
    requires p % 8 == 0 && bk % 8 == 0 && fd % 8 == 0 && p != bk && p != fd
    ensures Joined(LinkWrites(m, p, bk, fd), bk, p) && Joined(LinkWrites(m, p, bk, fd), p, fd)
  {
    LinkReads(m, p, bk, fd, bk);
    LinkReads(m, p, bk, fd, fd);
    LinkReads(m, p, bk, fd, p);
    hide LinkWrites;
  }

  lemma InsertedNode(l: seq<int>, h: int, j: nat, p: int, a: int)
    requires j <= |l| && -1 <= a <= |l| + 1
    ensures Node(Insert(l, j, p), h, a) == if a == j then p else Node(l, h, if a < j then a else a - 1)
  {
  }

  lemma LinkJoin(m: Mem, l: seq<int>, h: int, j: nat, p: int, a: int)
    requires Ring(m, l, h) && Spaced(l, h) && j <= |l| && p % 8 == 0 && p != h && p !in l && -1 <= a <= |l|
    ensures var t := Insert(l, j, p);
            Joined(LinkWrites(m, p, Node(l, h, j - 1), Node(l, h, j)), Node(t, h, a), Node(t, h, a + 1))
  {
    InsertedNode(l, h, j, p, a);
    InsertedNode(l, h, j, p, a + 1);
    hide Ring, Joined, LinkWrites, Insert;
    if a < j - 1 {
      LinkJoinFar(m, l, h, j, p, a);
    } else if a > j {
      LinkJoinFar(m, l, h, j, p, a - 1);
    } else {
      LinkJoinHere(m, p, Node(l, h, j - 1), Node(l, h, j));
    }
  }

  lemma LinkRing(m: Mem, l: seq<int>, h: int, j: nat, p: int)
    requires Ring(m, l, h) && Spaced(l, h) && j <= |l| && p % 8 == 0 && p != h && p !in l
    ensures Ring(LinkWrites(m, p, Node(l, h, j - 1), Node(l, h, j)), Insert(l, j, p), h)
  {
    var t := Insert(l, j, p);
    var m2 := LinkWrites(m, p, Node(l, h, j - 1), Node(l, h, j));
    forall a, b {:trigger Node(t, h, a), Node(t, h, b)} | -1 <= a < |t| && b == a + 1
      ensures Joined(m2, Node(t, h, a), Node(t, h, b))
    { LinkJoin(m, l, h, j, p, a); }
  }

  lemma LinkOnly(m: Mem, p: int, bk: int, fd: int)
    ensures OnlyLinks(m, LinkWrites(m, p, bk, fd), bk, fd, p)
  {
  }

  lemma LinkRings(m: Mem, s: Shape, i: int, j: nat, p: int)
    requires Tiled(s) && Placed(s) && Rings(m, s.bins) && 1 <= i < NAV && j <= |s.bins[i]| && IsLoose(s, p)
    ensures var b, f := Node(s.bins[i], BinAt(i), j - 1), Node(s.bins[i], BinAt(i), j);
            var m2 := LinkWrites(m, p, b, f);
            && Rings(m2, BinInto(s, p, i, j).bins)
            && OnlyLinks(m, m2, b, f, p) && IsNode(s, b) && IsNode(s, f) && IsNode(s, p)
  {
    var h, l := BinAt(i), s.bins[i];
    var b, f := Node(l, h, j - 1), Node(l, h, j);
    var m2, t := LinkWrites(m, p, b, f), BinInto(s, p, i, j);
    BinIsSpaced(s, i);
    assert Legal(p, s.sz[p]) && Ring(m, l, h) && |s.bins| == NAV && IsNode(s, p) && p != h && p !in l;
    hide Tiled, Placed, Ring, Spaced, Insert, OnlyLinks, LinkWrites, IsLoose;
    LinkOnly(m, p, b, f);
    LinkRing(m, l, h, j, p);
    forall k | 1 <= k < |t.bins| ensures Ring(m2, t.bins[k], BinAt(k))
    {
      if k != i { LinkWritesOtherBins(m, m2, s, b, f, p, i, k); }
    }
  }

  lemma MarksAfterInsert(blocks: bv32, bins: seq<seq<int>>, i: nat, j: nat, p: int)
    requires Marks(blocks, bins) && i < NAV && j <= |bins[i]| && (i < 2 || Marked(blocks, i / 4))
    ensures Marks(blocks, bins[i := Insert(bins[i], j, p)])
  {
  }

  lemma FeetAfterBin(m: Mem, s: Shape, p: int, i: nat, j: nat)
    requires Feet(m, s) && p in s.sz && m[p + s.sz[p]] == s.sz[p] && i < |s.bins| && j <= |s.bins[i]|
    ensures Feet(m, BinInto(s, p, i, j))
  {
  }

  /** Linking a loose chunk whose foot is set, at a position that keeps its bin sorted. */
  lemma LinkCore(m: Mem, s: Shape, blocks: bv32, i: int, j: nat, p: int)
    requires Core(m, s, blocks) && 1 <= i < NAV && j <= |s.bins[i]| && IsLoose(s, p)
    requires if i == LAST_REMAINDER then s.bins[i] == [] else i == BinIndex(s.sz[p]) && Marked(blocks, i / 4)
    requires Descending(s.sz, s.bins[i]) && FitsAt(s.sz, s.bins[i], j, s.sz[p])
    requires m[p + s.sz[p]] == s.sz[p]
    ensures var m2 := LinkWrites(m, p, Node(s.bins[i], BinAt(i), j - 1), Node(s.bins[i], BinAt(i), j));
            Core(m2, BinInto(s, p, i, j), blocks) && SameLive(m, m2, s)
  {
    hide Tiled, Placed, Heads, Feet, Rings, Marks, OnlyLinks, LinkWrites, IsNode, IsLoose, SameLive, Node, Insert, Next, BinIndex, Descending, FitsAt;
    LooseFoot(s, p);
    var b, f := Node(s.bins[i], BinAt(i), j - 1), Node(s.bins[i], BinAt(i), j);
    var m2, t := LinkWrites(m, p, b, f), BinInto(s, p, i, j);
    LinkRings(m, s, i, j, p);
    BinKeepsPlacing(s, p, i, j);
    MarksAfterInsert(blocks, s.bins, i, j, p);
    LinkWritesFrame(m, m2, s, b, f, p);
    LinkWritesMiss(m, m2, s, b, f, p, p);
    FeetAfterBin(m2, s, p, i, j);
    ListsOnlyChange(m2, s, t);
  }

  lemma LooseFoot(s: Shape, p: int)
    requires Placed(s) && IsLoose(s, p)
    ensures |s.bins| == NAV && p in s.sz && p != s.top && Next(s.sz, p) == p + s.sz[p]
  {
  }

  // ---- writing size words ----

  ghost predicate OnlyHeads(m: Mem, m2: Mem, x: int, y: int)
  {
    forall a :: a != x + SIZE && a != y + SIZE ==> m2[a] == m[a]
  }

  lemma HeadWordPrivate(t: Shape, x: int, q: int)
    requires Tiled(t) && x in t.sz && q in t.sz
    ensures x + SIZE != q + FD && x + SIZE != q + BK && x + SIZE != q + t.sz[q] && BINS_END <= x + SIZE
    ensures !InPayload(t.sz, q, x + SIZE)
  {
    assert Legal(x, t.sz[x]) && Legal(q, t.sz[q]);
    hide Linked;
  }

  lemma HeadWritesMiss(m: Mem, m2: Mem, t: Shape, x: int, y: int, q: int)
    requires Tiled(t) && x in t.sz && y in t.sz && OnlyHeads(m, m2, x, y) && q in t.sz
    ensures m2[q + t.sz[q]] == m[q + t.sz[q]] && m2[q + FD] == m[q + FD] && m2[q + BK] == m[q + BK]
    ensures forall a :: InPayload(t.sz, q, a) ==> m2[a] == m[a]
    ensures forall a :: 16 <= a < BINS_END ==> m2[a] == m[a]
  {
    HeadWordPrivate(t, x, q);
    HeadWordPrivate(t, y, q);
    hide Tiled;
  }

  lemma BinnedIsChunk(s: Shape, q: int)
    requires Placed(s) && q in s.at
    ensures q in s.sz && IsFree(s, q)
  {
    assert Homed(s, q);
  }

  /** Size words of chunks are no feet, no links and no user data. */
  lemma HeadWritesQuiet(m: Mem, m2: Mem, t: Shape, x: int, y: int)
    requires Tiled(t) && Placed(t) && x in t.sz && y in t.sz && OnlyHeads(m, m2, x, y)
    ensures Quiet(m, m2, t)
  {
    hide Tiled, Placed, OnlyHeads, InPayload;
    HeadWritesMiss(m, m2, t, x, y, x);
    forall q | q in t.at ensures q in t.sz && m2[q + t.sz[q]] == m[q + t.sz[q]] && m2[q + FD] == m[q + FD] && m2[q + BK] == m[q + BK]
    {
      BinnedIsChunk(t, q);
      HeadWritesMiss(m, m2, t, x, y, q);
    }
  }

  lemma HeadWritesLive(m: Mem, m2: Mem, t: Shape, x: int, y: int)
    requires Tiled(t) && x in t.sz && y in t.sz && OnlyHeads(m, m2, x, y)
    ensures SameLive(m, m2, t)
  {
    hide Tiled, OnlyHeads, InPayload;
    forall q, a | q in t.used && q in t.sz && InPayload(t.sz, q, a) ensures m2[a] == m[a]
    { HeadWritesMiss(m, m2, t, x, y, q); }
  }

  lemma FeetSame(m: Mem, s: Shape, t: Shape)
    requires Feet(m, s) && t.at == s.at && Placed(s) && Placed(t)
    requires forall q :: q in s.at && q in s.sz && q in t.sz ==> t.sz[q] == s.sz[q]
    ensures Feet(m, t)
  {
    hide Placed;
    forall q | q in t.at ensures q in t.sz && m[q + t.sz[q]] == t.sz[q] { BinnedIsChunk(s, q); BinnedIsChunk(t, q); }
  }

  /** Size words rewritten to fit a new shape leave the lists of both shapes as they were. */
  lemma HeadStep(m: Mem, m2: Mem, s: Shape, t: Shape, blocks: bv32, x: int, y: int)
    requires Core(m, s, blocks) && Tiled(t) && Placed(t) && Heads(m2, t)
    requires t.at == s.at && t.bins == s.bins
    requires forall q :: q in s.at && q in s.sz && q in t.sz ==> t.sz[q] == s.sz[q]
    requires x in t.sz && y in t.sz && OnlyHeads(m, m2, x, y)
    ensures Core(m2, t, blocks) && SameLive(m, m2, t)
  {
    hide Tiled, Placed, Heads, Feet, Rings, Marks, OnlyHeads, Quiet, SameLive;
    FeetSame(m, s, t);
    HeadWritesQuiet(m, m2, t, x, y);
    HeadWritesLive(m, m2, t, x, y);
    QuietKeepsLists(m, m2, t);
  }

  // ---- cutting, joining and handing out chunks ----

  /** Both size words written when the front of p is handed out. */
  function CarveWrites(m: Mem, p: int, head: int, r: int, rhead: int): Mem
  {
    m[p + SIZE := head][r + SIZE := rhead]
  }

  lemma CarveHead(s: Shape, p: int, k: nat, q: int)
    requires Tiled(s) && p in s.sz && 0 < k < s.sz[p]
    requires q in s.sz
    ensures PrevInUse(Carve(s, p, k), q) == PrevInUse(s, q)
    ensures PrevInUse(Carve(s, p, k), p + k) == 1
  {
    SplitPoint(s, p, k);
    hide Apart;
    if q != s.base { assert Next(s.sz, s.prv[q]) == q; }
    assert p != s.top ==> s.prv[Next(s.sz, p)] == p;
    assert p + k != s.base && s.top != INITIAL_TOP;
    hide Linked, Bounded;
  }

  lemma CarveHeadsBy(m: Mem, s: Shape, t: Shape, p: int, k: nat, r: int)
    requires Heads(m, s) && p in s.sz && 0 < k < s.sz[p] && r == p + k && r !in s.sz
    requires t.sz == s.sz[p := k][r := s.sz[p] - k]
    requires forall q :: q in s.sz ==> PrevInUse(t, q) == PrevInUse(s, q)
    requires PrevInUse(t, r) == 1
    ensures Heads(CarveWrites(m, p, k + PrevInUse(s, p), r, s.sz[p] - k + 1), t)
  {
    hide PrevInUse;
  }

  lemma CarveHeads(m: Mem, s: Shape, p: int, k: nat)
    requires Tiled(s) && Heads(m, s) && p in s.sz && 0 < k < s.sz[p]
    ensures Heads(CarveWrites(m, p, k + PrevInUse(s, p), p + k, s.sz[p] - k + 1), Carve(s, p, k))
  {
    var t, r := Carve(s, p, k), p + k;
    SplitPoint(s, p, k);
    assert t.sz == s.sz[p := k][r := s.sz[p] - k];
    hide PrevInUse, Tiled, Carve, Heads, CarveWrites;
    CarveHead(s, p, k, p);
    forall q | q in s.sz ensures PrevInUse(t, q) == PrevInUse(s, q) { CarveHead(s, p, k, q); }
    CarveHeadsBy(m, s, t, p, k, r);
  }

  lemma CarveKeepsLists(s: Shape, p: int, k: nat)
    requires Tiled(s) && Placed(s) && p in s.sz && p !in s.at
    requires k % 8 == 0 && MINSIZE <= k && k + MINSIZE <= s.sz[p]
    ensures var t := Carve(s, p, k);
            && Tiled(t) && Placed(t) && t.at == s.at && t.bins == s.bins && p in t.sz && p + k in t.sz
            && (forall q :: q in s.at && q in s.sz && q in t.sz ==> t.sz[q] == s.sz[q])
  {
    var t := Carve(s, p, k);
    CarveKeepsTiling(s, p, k);
    assert s.used <= s.sz.Keys;
    hide Tiled, Placed;
    CarveKeepsPlacing(s, p, k);
  }

  lemma CarveOnlyHeads(m: Mem, p: int, head: int, r: int, rhead: int)
    ensures OnlyHeads(m, CarveWrites(m, p, head, r, rhead), p, r)
  {
  }

  /** Handing out the front k bytes of a chunk that is on no list. */
  lemma CarveCore(m: Mem, s: Shape, blocks: bv32, p: int, k: nat)
    requires Core(m, s, blocks) && p in s.sz && p !in s.at
    requires k % 8 == 0 && MINSIZE <= k && k + MINSIZE <= s.sz[p]
    ensures var m2 := CarveWrites(m, p, k + PrevInUse(s, p), p + k, s.sz[p] - k + 1);
            Core(m2, Carve(s, p, k), blocks) && SameLive(m, m2, Carve(s, p, k))
  {
    hide Tiled, Placed, Heads, Feet, Rings, Marks, PrevInUse, SameLive, Carve, OnlyHeads, CarveWrites;
    var t := Carve(s, p, k);
    var m2 := CarveWrites(m, p, k + PrevInUse(s, p), p + k, s.sz[p] - k + 1);
    CarveKeepsLists(s, p, k);
    CarveHeads(m, s, p, k);
    CarveOnlyHeads(m, p, k + PrevInUse(s, p), p + k, s.sz[p] - k + 1);
    HeadStep(m, m2, s, t, blocks, p, p + k);
  }

  lemma UseHead(s: Shape, p: int, u: bool, q: int)
    requires Tiled(s) && p in s.sz && p != s.top && q in s.sz
    ensures Next(s.sz, p) in s.sz
    ensures PrevInUse(WithUse(s, p, u), q) == if q != Next(s.sz, p) then PrevInUse(s, q) else if u then 1 else 0
  {
    assert Next(s.sz, p) in s.sz && s.prv[Next(s.sz, p)] == p && p < Next(s.sz, p);
    hide Apart;
    assert Next(s.sz, p) != s.base;
    hide Bounded;
    if q != s.base { assert Next(s.sz, s.prv[q]) == q; }
  }

  lemma UseHeads(m: Mem, s: Shape, p: int, u: bool)
    requires Tiled(s) && Heads(m, s) && p in s.sz && p != s.top && Next(s.sz, p) in s.sz
    ensures var n := Next(s.sz, p); Heads(m[n + SIZE := s.sz[n] + if u then 1 else 0], WithUse(s, p, u))
  {
    var n, t := Next(s.sz, p), WithUse(s, p, u);
    hide Tiled, PrevInUse, Next;
    forall q | q in s.sz
      ensures PrevInUse(t, q) == if q != n then PrevInUse(s, q) else if u then 1 else 0
    { UseHead(s, p, u, q); }
  }

  /** Setting or clearing the in-use bit of a chunk that is on no list. */
  lemma UseCore(m: Mem, s: Shape, blocks: bv32, p: int, u: bool)
    requires Core(m, s, blocks) && p in s.sz && p != s.top && p !in s.at
    ensures Next(s.sz, p) in s.sz
    ensures var n := Next(s.sz, p);
            var m2 := m[n + SIZE := s.sz[n] + if u then 1 else 0];
            Core(m2, WithUse(s, p, u), blocks) && SameLive(m, m2, s)
  {
    hide Tiled, Placed, Heads, Feet, Rings, Marks, SameLive, Next, Core;
    var n, t := Next(s.sz, p), WithUse(s, p, u);
    assert Tiled(s) && Placed(s) && Heads(m, s) by { CoreParts(m, s, blocks); }
    UseHead(s, p, u, p);
    var m2 := m[n + SIZE := s.sz[n] + if u then 1 else 0];
    UseKeepsTiling(s, p, u);
    UseKeepsPlacing(s, p, u);
    UseHeads(m, s, p, u);
    HeadWritesLive(m, m2, s, n, n);
    HeadStep(m, m2, s, t, blocks, n, n);
  }

  lemma CoreParts(m: Mem, s: Shape, blocks: bv32)
    requires Core(m, s, blocks)
    ensures Tiled(s) && Placed(s) && Heads(m, s) && Feet(m, s) && Rings(m, s.bins) && Marks(blocks, s.bins)
  {
  }

  lemma FuseHead(s: Shape, p: int, u: bool, q: int)
    requires Tiled(s) && p in s.sz && p != s.top && Next(s.sz, p) in s.sz && q in s.sz && q != Next(s.sz, p)
    ensures var n := Next(s.sz, p);
            PrevInUse(Fuse(s, p, u), q) == if n != s.top && q == Next(s.sz, n) then (if u then 1 else 0) else PrevInUse(s, q)
  {
    var n := Next(s.sz, p);
    assert p < n && s.prv[n] == p && s.top != INITIAL_TOP;
    assert n != s.top ==> Next(s.sz, n) in s.sz && n < Next(s.sz, n);
    hide Apart;
    assert q != s.base ==> Next(s.sz, s.prv[q]) == q;
    assert n != s.top ==> s.prv[Next(s.sz, n)] == n && Next(s.sz, n) != s.base;
    hide Bounded, Linked;
  }

  /** The size words to write when p swallows the chunk after it. */
  ghost function FuseWrites(m: Mem, s: Shape, p: int, u: bool): Mem
    requires p in s.sz && Next(s.sz, p) in s.sz
  {
    var n := Next(s.sz, p);
    var m1 := m[p + SIZE := s.sz[p] + s.sz[n] + PrevInUse(s, p)];
    if n == s.top || Next(s.sz, n) !in s.sz then m1
    else m1[Next(s.sz, n) + SIZE := s.sz[Next(s.sz, n)] + if u then 1 else 0]
  }

  lemma FuseSizes(s: Shape, p: int, u: bool)
    requires Tiled(s) && p in s.sz && p != s.top
    ensures Next(s.sz, p) in s.sz
    ensures var t, n := Fuse(s, p, u), Next(s.sz, p);
            && n != p && (n != s.top ==> Next(s.sz, n) in s.sz && Next(s.sz, n) != p && Next(s.sz, n) != n && Next(s.sz, n) in t.sz)
            && p in t.sz && n !in t.sz && t.sz[p] == s.sz[p] + s.sz[n]
            && (forall q :: q in t.sz <==> q in s.sz && q != n)
            && (forall q :: q in t.sz && q != p ==> t.sz[q] == s.sz[q])
            && t.at == s.at && t.bins == s.bins
  {
    var n := Next(s.sz, p);
    assert n in s.sz && p < n && s.top != INITIAL_TOP;
    assert n != s.top ==> Next(s.sz, n) in s.sz && n < Next(s.sz, n);
    hide Tiled;
  }

  lemma FuseHeadAtTop(m: Mem, s: Shape, p: int, u: bool, q: int)
    requires Tiled(s) && Heads(m, s) && p in s.sz && p != s.top && Next(s.sz, p) in s.sz && q in Fuse(s, p, u).sz
    requires Next(s.sz, p) == s.top
    ensures FuseWrites(m, s, p, u)[q + SIZE] == Fuse(s, p, u).sz[q] + PrevInUse(Fuse(s, p, u), q)
  {
    FuseSizes(s, p, u);
    hide Tiled, PrevInUse, Fuse, Next;
    FuseHead(s, p, u, q);
  }

  lemma FuseHeadsBy(m: Mem, s: Shape, t: Shape, p: int, n: int, nn: int, bit: int, q: int)
    requires Heads(m, s) && p in s.sz && n in s.sz && q in s.sz && q != n && q in t.sz && nn != p
    requires t.sz[q] == if q == p then s.sz[p] + s.sz[n] else s.sz[q]
    requires PrevInUse(t, q) == if q == nn then bit else PrevInUse(s, q)
    requires nn in s.sz
    ensures m[p + SIZE := s.sz[p] + s.sz[n] + PrevInUse(s, p)][nn + SIZE := s.sz[nn] + bit][q + SIZE] == t.sz[q] + PrevInUse(t, q)
  {
    hide PrevInUse;
  }
  lemma FuseHeadBelowTop(m: Mem, s: Shape, p: int, u: bool, q: int)
    requires Tiled(s) && Heads(m, s) && p in s.sz && p != s.top && Next(s.sz, p) in s.sz && q in Fuse(s, p, u).sz
    requires Next(s.sz, p) != s.top
    ensures FuseWrites(m, s, p, u)[q + SIZE] == Fuse(s, p, u).sz[q] + PrevInUse(Fuse(s, p, u), q)
  {
    hide Tiled, PrevInUse, Fuse, Next, Heads;
    FuseSizes(s, p, u);
    FuseHead(s, p, u, q);
    var n := Next(s.sz, p);
    FuseHeadsBy(m, s, Fuse(s, p, u), p, n, Next(s.sz, n), if u then 1 else 0, q);
  }

  lemma FuseHeads(m: Mem, s: Shape, p: int, u: bool)
    requires Tiled(s) && Heads(m, s) && p in s.sz && p != s.top && Next(s.sz, p) in s.sz
    ensures Heads(FuseWrites(m, s, p, u), Fuse(s, p, u))
  {
    hide Tiled, PrevInUse, Fuse, Next, FuseWrites;
    var t := Fuse(s, p, u);
    forall q | q in t.sz ensures FuseWrites(m, s, p, u)[q + SIZE] == t.sz[q] + PrevInUse(t, q)
    {
      if Next(s.sz, p) == s.top { FuseHeadAtTop(m, s, p, u, q); } else { FuseHeadBelowTop(m, s, p, u, q); }
    }
  }

  lemma FuseOnlyHeads(m: Mem, s: Shape, p: int, u: bool)
    requires p in s.sz && Next(s.sz, p) in s.sz
    ensures var n := Next(s.sz, p);
            OnlyHeads(m, FuseWrites(m, s, p, u), p, if n != s.top && Next(s.sz, n) in s.sz then Next(s.sz, n) else p)
  {
    hide PrevInUse, Next;
  }

  /** Joining a chunk with its successor, neither on a list; u says whether the result is in use. */
  lemma FuseCore(m: Mem, s: Shape, blocks: bv32, p: int, u: bool)
    requires Core(m, s, blocks) && p in s.sz && p != s.top && p !in s.at
    requires Next(s.sz, p) in s.sz && Next(s.sz, p) !in s.at && (Next(s.sz, p) == s.top ==> !u)
    ensures Core(FuseWrites(m, s, p, u), Fuse(s, p, u), blocks) && SameLive(m, FuseWrites(m, s, p, u), Fuse(s, p, u))
  {
    hide Tiled, Placed, Heads, Feet, Rings, Marks, PrevInUse, SameLive, Fuse, OnlyHeads, FuseWrites, Next;
    var n := Next(s.sz, p);
    FuseSizes(s, p, u);
    FuseKeepsTiling(s, p, u);
    FuseKeepsPlacing(s, p, u);
    FuseHeads(m, s, p, u);
    FuseOnlyHeads(m, s, p, u);
    HeadStep(m, FuseWrites(m, s, p, u), s, Fuse(s, p, u), blocks, p, if n != s.top && Next(s.sz, n) in s.sz then Next(s.sz, n) else p);
  }

  lemma ResizeTopHeads(m: Mem, s: Shape, size: nat)
    requires Tiled(s) && Heads(m, s) && s.top != INITIAL_TOP
    ensures s.top in s.sz && Heads(m[s.top + SIZE := size + PrevInUse(s, s.top)], ResizeTop(s, size))
  {
    assert s.top in s.sz;
    var t := ResizeTop(s, size);
    hide Tiled, PrevInUse;
    forall q | q in s.sz ensures PrevInUse(t, q) == PrevInUse(s, q) { ResizeHead(s, size, q); }
  }

  lemma ResizeHead(s: Shape, size: nat, q: int)
    ensures PrevInUse(ResizeTop(s, size), q) == PrevInUse(s, q)
  {
  }

  /** Growing or trimming the topmost chunk. */
  lemma ResizeTopCore(m: Mem, s: Shape, blocks: bv32, size: nat)
    requires Core(m, s, blocks) && s.top != INITIAL_TOP && s.top in s.sz && size % 8 == 0 && MINSIZE <= size
    ensures var m2 := m[s.top + SIZE := size + PrevInUse(s, s.top)];
            Core(m2, ResizeTop(s, size), blocks) && SameLive(m, m2, ResizeTop(s, size))
  {
    hide Tiled, Placed, Heads, Feet, Rings, Marks, SameLive, PrevInUse;
    var m2, t := m[s.top + SIZE := size + PrevInUse(s, s.top)], ResizeTop(s, size);
    ResizeTopKeepsTiling(s, size);
    ResizeTopKeepsPlacing(s, size);
    ResizeTopHeads(m, s, size);
    BinnedIsNotTop(s);
    HeadStep(m, m2, s, t, blocks, s.top, s.top);
  }

  lemma BinnedIsNotTop(s: Shape)
    requires Placed(s)
    ensures s.top !in s.at
  {
    if s.top in s.at { BinnedIsChunk(s, s.top); }
  }
}
