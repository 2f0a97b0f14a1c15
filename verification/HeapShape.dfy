/** The arena as a tiling: where chunks start, how large they are, which are in use and
    which bin list each binned chunk is on. Steps on shapes are the abstract counterpart of
    the allocator's pointer writes. A chunk that is neither in use, nor top, nor binned is
    loose: an operation is holding it. */
module HeapShape {
  import opened HeapSizes

  const INITIAL_TOP := 0          // bin_at(0): top points here before the first extension
  const LAST_REMAINDER := 1       // bin 1 holds only the last split-off remainder
  const BINS_END := 1032          // first address past the static bin headers

  datatype Shape = Shape(
    sz: map<int, int>,            // chunk start -> size
    used: set<int>,               // chunks handed out
    prv: map<int, int>,           // chunk start -> start of the chunk before it
    bins: seq<seq<int>>,          // each bin's chunks in forward-link order
    at: map<int, int>,            // binned chunk -> its bin
    base: int,
    top: int)

  ghost predicate IsFree(s: Shape, p: int)
  {
    p in s.sz && p !in s.used && p != s.top
  }

  ghost predicate IsLoose(s: Shape, p: int)
  {
    IsFree(s, p) && p !in s.at
  }

  type Sizes = map<int, int>

  ghost function Next(sz: Sizes, p: int): int
    requires p in sz
  {
    p + sz[p]
  }

  ghost predicate Legal(p: int, size: int)
  {
    BINS_END <= p && p % 8 == 0 && size % 8 == 0 && MINSIZE <= size
  }

  ghost predicate Bounded(sz: Sizes, base: int, top: int)
  {
    forall p {:trigger p in sz} :: p in sz ==> Legal(p, sz[p]) && base <= p <= top
  }

  ghost predicate Apart(sz: Sizes)
  {
    forall p, q {:trigger p in sz, q in sz} :: p in sz && q in sz && p < q ==> p + sz[p] <= q
  }

  ghost predicate Linked(sz: Sizes, prv: map<int, int>, base: int, top: int)
  {
    && (forall p {:trigger Next(sz, p)} :: p in sz && p != top ==>
          Next(sz, p) in sz && Next(sz, p) in prv && prv[Next(sz, p)] == p)
    && (forall p {:trigger prv[p]} {:trigger p in prv} :: p in sz && p != base ==>
          p in prv && prv[p] in sz && prv[p] != top && Next(sz, prv[p]) == p)
  }

  /** Chunks cover the arena from base to the end of top without gap or overlap. */
  ghost predicate Tiled(s: Shape)
  {
    if s.top == INITIAL_TOP then s.sz == map[] && s.used == {}
    else
      && s.base in s.sz && s.top in s.sz && s.top !in s.used && s.used <= s.sz.Keys
      && Bounded(s.sz, s.base, s.top)
      && Apart(s.sz)
      && Linked(s.sz, s.prv, s.base, s.top)
  }

  ghost predicate Members(at: map<int, int>, l: seq<int>, i: int)
  {
    forall j :: 0 <= j < |l| ==> l[j] in at && at[l[j]] == i
  }

  /** Distinct chunks in decreasing size order. */
  ghost predicate Descending(sz: Sizes, l: seq<int>)
  {
    && (forall j :: 0 <= j < |l| ==> l[j] in sz)
    && (forall j, k :: 0 <= j < k < |l| ==> l[j] != l[k] && sz[l[j]] >= sz[l[k]])
  }

  ghost predicate Homed(s: Shape, p: int)
    requires p in s.at && |s.bins| == NAV
  {
    && IsFree(s, p) && 1 <= s.at[p] < NAV && p in s.bins[s.at[p]]
    && (s.at[p] == LAST_REMAINDER || s.at[p] == BinIndex(s.sz[p]))
  }

  /** Every bin list holds distinct free chunks of its own index in decreasing size order. */
  ghost predicate Placed(s: Shape)
  {
    && |s.bins| == NAV && s.bins[0] == [] && |s.bins[LAST_REMAINDER]| <= 1
    && (forall p :: p in s.at ==> Homed(s, p))
    && (forall i :: 0 <= i < NAV ==> Members(s.at, s.bins[i], i) && Descending(s.sz, s.bins[i]))
  }

  /** Between operations every free chunk is binned and borders only chunks in use. */
  ghost predicate Settled(s: Shape)
  {
    && (forall p {:trigger IsFree(s, p)} :: IsFree(s, p) ==> p in s.at)
    && (forall p {:trigger IsFree(s, p)} :: IsFree(s, p) ==> p + s.sz[p] in s.used)
  }

  // ---- steps ----

  ghost function Remove(l: seq<int>, j: nat): seq<int>
    requires j < |l|
  {
    l[..j] + l[j + 1..]
  }

  ghost function Insert(l: seq<int>, j: nat, p: int): seq<int>
    requires j <= |l|
  {
    l[..j] + [p] + l[j..]
  }

  ghost function UnbinAt(s: Shape, i: nat, j: nat): Shape
    requires i < |s.bins| && j < |s.bins[i]|
  {
    s.(bins := s.bins[i := Remove(s.bins[i], j)], at := s.at - {s.bins[i][j]})
  }

  ghost function BinInto(s: Shape, p: int, i: nat, j: nat): (t: Shape)
    requires i < |s.bins| && j <= |s.bins[i]|
    ensures t.sz == s.sz && t.used == s.used && t.prv == s.prv && t.base == s.base && t.top == s.top
  {
    s.(bins := s.bins[i := Insert(s.bins[i], j, p)], at := s.at[p := i])
  }

  ghost function WithUse(s: Shape, p: int, u: bool): Shape
  {
    s.(used := if u then s.used + {p} else s.used - {p})
  }

  /** Cuts chunk p after k bytes; the tail is loose, or the new top when p was top. */
  ghost function Split(s: Shape, p: int, k: nat): Shape
    requires p in s.sz && k <= s.sz[p]
  {
    s.(sz := s.sz[p := k][p + k := s.sz[p] - k],
       prv := s.prv[p + s.sz[p] := p + k][p + k := p],
       top := if p == s.top then p + k else s.top)
  }

  /** Joins p with the chunk after it; u says whether the result is in use. Joining
      with top makes p the top. */
  ghost function Fuse(s: Shape, p: int, u: bool): Shape
    requires p in s.sz && Next(s.sz, p) in s.sz
  {
    var n := Next(s.sz, p);
    s.(sz := (s.sz - {n})[p := s.sz[p] + s.sz[n]],
       prv := s.prv[n + s.sz[n] := p],
       used := if u then (s.used - {n}) + {p} else s.used - {n, p},
       top := if n == s.top then p else s.top)
  }

  ghost function ResizeTop(s: Shape, size: nat): Shape
  {
    s.(sz := s.sz[s.top := size])
  }

  // ---- every step keeps the tiling ----

  lemma UseKeepsTiling(s: Shape, p: int, u: bool)
    requires Tiled(s) && p in s.sz && p != s.top
    ensures Tiled(WithUse(s, p, u))
  {
  }

  lemma SplitPoint(s: Shape, p: int, k: nat)
    requires Tiled(s) && p in s.sz && 0 < k < s.sz[p]
    ensures p + k !in s.sz
  {
    hide Linked;
  }

  lemma SplitNext(s: Shape, p: int, k: nat, q: int)
    requires Tiled(s) && p in s.sz && 0 < k < s.sz[p]
    requires var t := Split(s, p, k); q in t.sz && q != t.top
    ensures var t := Split(s, p, k);
            Next(t.sz, q) in t.sz && Next(t.sz, q) in t.prv && t.prv[Next(t.sz, q)] == q
  {
    SplitPoint(s, p, k);
    hide Bounded, Apart;
    if q == p {
    } else if q == p + k {
      assert Next(s.sz, p) in s.sz;
    } else {
      assert Next(s.sz, q) in s.sz;
    }
  }

  lemma SplitPrev(s: Shape, p: int, k: nat, q: int)
    requires Tiled(s) && p in s.sz && 0 < k < s.sz[p]
    requires var t := Split(s, p, k); q in t.sz && q != t.base
    ensures var t := Split(s, p, k);
            q in t.prv && t.prv[q] in t.sz && t.prv[q] != t.top && Next(t.sz, t.prv[q]) == q
  {
    SplitPoint(s, p, k);
    hide Bounded, Apart;
    if q != p + k { assert Next(s.sz, s.prv[q]) == q; }
  }

  lemma SplitBounds(s: Shape, p: int, k: nat)
    requires Tiled(s) && p in s.sz && k % 8 == 0 && MINSIZE <= k && k + MINSIZE <= s.sz[p]
    ensures var t := Split(s, p, k); Bounded(t.sz, t.base, t.top) && Apart(t.sz)
  {
    SplitBounded(s, p, k);
    SplitApart(s, p, k);
    hide *;
  }

  lemma SplitBounded(s: Shape, p: int, k: nat)
    requires Tiled(s) && p in s.sz && k % 8 == 0 && MINSIZE <= k && k + MINSIZE <= s.sz[p]
    ensures var t := Split(s, p, k); Bounded(t.sz, t.base, t.top)
  {
    hide Linked;
    assert Legal(p, s.sz[p]) && s.base <= p <= s.top;
    assert p == s.top || p + s.sz[p] <= s.top;
    hide Apart;
  }

  lemma SplitApart(s: Shape, p: int, k: nat)
    requires Tiled(s) && p in s.sz && k % 8 == 0 && MINSIZE <= k && k + MINSIZE <= s.sz[p]
    ensures Apart(Split(s, p, k).sz)
  {
    hide Linked, Bounded;
  }

  lemma SplitKeepsTiling(s: Shape, p: int, k: nat)
    requires Tiled(s) && p in s.sz && k % 8 == 0 && MINSIZE <= k && k + MINSIZE <= s.sz[p]
    ensures Tiled(Split(s, p, k))
  {
    var t := Split(s, p, k);
    SplitBounds(s, p, k);
    SplitPoint(s, p, k);
    assert Linked(t.sz, t.prv, t.base, t.top) by {
      forall q {:trigger Next(t.sz, q)} | q in t.sz && q != t.top
        ensures Next(t.sz, q) in t.sz && Next(t.sz, q) in t.prv && t.prv[Next(t.sz, q)] == q
      { SplitNext(s, p, k, q); }
      forall q {:trigger t.prv[q]} {:trigger q in t.prv} | q in t.sz && q != t.base
        ensures q in t.prv && t.prv[q] in t.sz && t.prv[q] != t.top && Next(t.sz, t.prv[q]) == q
      { SplitPrev(s, p, k, q); }
    }
    hide Bounded, Apart, Linked;
  }

  lemma FuseNext(s: Shape, p: int, u: bool, q: int)
    requires Tiled(s) && p in s.sz && p != s.top && Next(s.sz, p) in s.sz
    requires var t := Fuse(s, p, u); q in t.sz && q != t.top
    ensures var t := Fuse(s, p, u);
            Next(t.sz, q) in t.sz && Next(t.sz, q) in t.prv && t.prv[Next(t.sz, q)] == q
  {
    var n := Next(s.sz, p);
    assert p < n && s.top != INITIAL_TOP;
    hide Bounded;
    if q == p {
      assert Next(s.sz, n) in s.sz && n < Next(s.sz, n);
    } else {
      assert Next(s.sz, q) in s.sz && s.prv[Next(s.sz, q)] == q && s.prv[n] == p;
      assert n != s.top ==> Next(s.sz, n) in s.sz && s.prv[Next(s.sz, n)] == n;
    }
  }

  lemma FusePrev(s: Shape, p: int, u: bool, q: int)
    requires Tiled(s) && p in s.sz && p != s.top && Next(s.sz, p) in s.sz
    requires var t := Fuse(s, p, u); q in t.sz && q != t.base
    ensures var t := Fuse(s, p, u);
            q in t.prv && t.prv[q] in t.sz && t.prv[q] != t.top && Next(t.sz, t.prv[q]) == q
  {
    var n := Next(s.sz, p);
    assert p < n && s.top != INITIAL_TOP;
    hide Bounded, Apart;
    assert Next(s.sz, s.prv[q]) == q && s.prv[n] == p;
    assert n != s.top ==> Next(s.sz, n) in s.sz && s.prv[Next(s.sz, n)] == n;
  }

  lemma BeforeTop(s: Shape, p: int, q: int)
    requires Tiled(s) && p in s.sz && q in s.sz && p + s.sz[p] == s.top && q != s.top
    ensures q <= p
  {
    hide Linked;
  }

  lemma FusedIsLegal(s: Shape, p: int, u: bool, q: int)
    requires Tiled(s) && p in s.sz && p != s.top && Next(s.sz, p) in s.sz && q in Fuse(s, p, u).sz
    ensures var t := Fuse(s, p, u); Legal(q, t.sz[q]) && t.base <= q <= t.top
  {
    hide Linked;
    var n := Next(s.sz, p);
    assert q in s.sz && q != n && Legal(q, s.sz[q]) && Legal(p, s.sz[p]) && Legal(n, s.sz[n]);
    if n == s.top { BeforeTop(s, p, q); }
    hide Apart, Bounded;
  }

  lemma FuseBounded(s: Shape, p: int, u: bool)
    requires Tiled(s) && p in s.sz && p != s.top && Next(s.sz, p) in s.sz
    ensures var t := Fuse(s, p, u); Bounded(t.sz, t.base, t.top)
    ensures p < Next(s.sz, p)
  {
    assert Legal(p, s.sz[p]) && MINSIZE > 0;
    hide Tiled, Fuse, Linked, Apart;
    var t := Fuse(s, p, u);
    forall q {:trigger q in t.sz} | q in t.sz ensures Legal(q, t.sz[q]) && t.base <= q <= t.top { FusedIsLegal(s, p, u, q); }
  }

  lemma FuseApart(s: Shape, p: int, u: bool)
    requires Tiled(s) && p in s.sz && p != s.top && Next(s.sz, p) in s.sz
    ensures Apart(Fuse(s, p, u).sz)
  {
    hide Linked;
  }

  lemma FuseBounds(s: Shape, p: int, u: bool)
    requires Tiled(s) && p in s.sz && p != s.top && Next(s.sz, p) in s.sz
    ensures var t := Fuse(s, p, u); Bounded(t.sz, t.base, t.top) && Apart(t.sz)
    ensures p < Next(s.sz, p)
  {
    FuseBounded(s, p, u);
    FuseApart(s, p, u);
    hide *;
  }

  lemma FuseKeepsTiling(s: Shape, p: int, u: bool)
    requires Tiled(s) && p in s.sz && p != s.top
    requires Next(s.sz, p) == s.top ==> !u
    ensures Tiled(Fuse(s, p, u))
  {
    var t := Fuse(s, p, u);
    FuseBounds(s, p, u);
    assert Linked(t.sz, t.prv, t.base, t.top) by {
      forall q {:trigger Next(t.sz, q)} | q in t.sz && q != t.top
        ensures Next(t.sz, q) in t.sz && Next(t.sz, q) in t.prv && t.prv[Next(t.sz, q)] == q
      { FuseNext(s, p, u, q); }
      forall q {:trigger t.prv[q]} {:trigger q in t.prv} | q in t.sz && q != t.base
        ensures q in t.prv && t.prv[q] in t.sz && t.prv[q] != t.top && Next(t.sz, t.prv[q]) == q
      { FusePrev(s, p, u, q); }
    }
    assert t.base in t.sz && t.top in t.sz;
    hide Bounded, Apart, Linked;
  }

  lemma ResizeTopKeepsTiling(s: Shape, size: nat)
    requires Tiled(s) && s.top != INITIAL_TOP && size % 8 == 0 && MINSIZE <= size
    ensures Tiled(ResizeTop(s, size))
  {
    var t := ResizeTop(s, size);
    assert Bounded(t.sz, t.base, t.top) && Apart(t.sz) by { hide Linked; }
    assert Linked(t.sz, t.prv, t.base, t.top) by {
      hide Bounded, Apart;
      forall q {:trigger Next(t.sz, q)} | q in t.sz && q != t.top
        ensures Next(t.sz, q) in t.sz && Next(t.sz, q) in t.prv && t.prv[Next(t.sz, q)] == q
      { assert Next(s.sz, q) in s.sz; }
      forall q {:trigger t.prv[q]} {:trigger q in t.prv} | q in t.sz && q != t.base
        ensures q in t.prv && t.prv[q] in t.sz && t.prv[q] != t.top && Next(t.sz, t.prv[q]) == q
      { assert Next(s.sz, s.prv[q]) == q; }
    }
    hide Bounded, Apart, Linked;
  }

  // ---- binning keeps the lists well placed ----

  lemma RemoveKeepsOrder(sz: Sizes, l: seq<int>, j: nat)
    requires Descending(sz, l) && j < |l|
    ensures Descending(sz, Remove(l, j))
    ensures forall q :: q in Remove(l, j) <==> q in l && q != l[j]
  {
    var t := Remove(l, j);
    assert forall a :: 0 <= a < |t| ==> t[a] == l[if a < j then a else a + 1];
    forall q | q in l && q != l[j] ensures q in t
    {
      var a :| 0 <= a < |l| && l[a] == q;
      assert t[if a < j then a else a - 1] == q;
    }
  }

  /** A position that keeps a bin in size order for a chunk of size k. */
  ghost predicate FitsAt(sz: Sizes, l: seq<int>, j: nat, k: int)
    requires j <= |l| && Descending(sz, l)
  {
    && (forall a :: 0 <= a < j ==> sz[l[a]] >= k)
    && (forall a :: j <= a < |l| ==> k >= sz[l[a]])
  }

  lemma InsertKeepsOrder(sz: Sizes, l: seq<int>, j: nat, p: int)
    requires Descending(sz, l) && j <= |l| && p in sz && p !in l && FitsAt(sz, l, j, sz[p])
    ensures Descending(sz, Insert(l, j, p))
    ensures forall q :: q in Insert(l, j, p) <==> q in l || q == p
  {
    var t := Insert(l, j, p);
    assert t[j] == p && forall a :: 0 <= a < |t| && a != j ==> t[a] == l[if a < j then a else a - 1];
    forall q | q in l ensures q in t
    {
      var a :| 0 <= a < |l| && l[a] == q;
      assert t[if a < j then a else a + 1] == q;
    }
  }

  lemma RemoveKeepsMembers(at: map<int, int>, sz: Sizes, l: seq<int>, i: int, j: nat)
    requires Members(at, l, i) && Descending(sz, l) && j < |l|
    ensures Members(at - {l[j]}, Remove(l, j), i)
  {
    var t := Remove(l, j);
    forall a | 0 <= a < |t| ensures t[a] in at - {l[j]} && at[t[a]] == i
    {
      assert t[a] == l[if a < j then a else a + 1];
    }
  }

  lemma InsertKeepsMembers(at: map<int, int>, l: seq<int>, i: int, j: nat, p: int)
    requires Members(at, l, i) && p !in at && j <= |l|
    ensures Members(at[p := i], Insert(l, j, p), i)
  {
    var t := Insert(l, j, p);
    forall a | 0 <= a < |t| ensures t[a] in at[p := i] && at[p := i][t[a]] == i
    {
      assert a != j ==> t[a] == l[if a < j then a else a - 1];
    }
  }

  lemma MembersElsewhere(at: map<int, int>, at2: map<int, int>, l: seq<int>, k: int, p: int)
    requires Members(at, l, k) && (p in at ==> at[p] != k)
    requires forall q :: q in at && q != p ==> q in at2 && at2[q] == at[q]
    ensures Members(at2, l, k)
  {
    forall j | 0 <= j < |l| ensures l[j] in at2 && at2[l[j]] == k { assert l[j] in at && l[j] != p; }
  }

  lemma UnbinKeepsPlacing(s: Shape, i: nat, j: nat)
    requires Placed(s) && i < NAV && j < |s.bins[i]|
    ensures Placed(UnbinAt(s, i, j))
    ensures s.bins[i][j] in s.at && i == s.at[s.bins[i][j]] && IsLoose(UnbinAt(s, i, j), s.bins[i][j])
  {
    hide BinIndex;
    var t := UnbinAt(s, i, j);
    var p := s.bins[i][j];
    assert Members(s.at, s.bins[i], i) && Descending(s.sz, s.bins[i]) && Homed(s, p);
    RemoveKeepsOrder(s.sz, s.bins[i], j);
    RemoveKeepsMembers(s.at, s.sz, s.bins[i], i, j);
    assert |Remove(s.bins[i], j)| == |s.bins[i]| - 1;
    hide Remove, Descending, Members;
    forall k | 0 <= k < NAV ensures Members(t.at, t.bins[k], k) && Descending(t.sz, t.bins[k])
    {
      assert Members(s.at, s.bins[k], k) && Descending(s.sz, s.bins[k]);
      if k != i { MembersElsewhere(s.at, t.at, s.bins[k], k, p); }
    }
    forall q | q in t.at ensures Homed(t, q) { assert Homed(s, q); }
  }

  lemma BinKeepsPlacing(s: Shape, p: int, i: nat, j: nat)
    requires Placed(s) && IsLoose(s, p) && 1 <= i < NAV && j <= |s.bins[i]|
    requires if i == LAST_REMAINDER then s.bins[i] == [] else i == BinIndex(s.sz[p])
    requires Descending(s.sz, s.bins[i]) && FitsAt(s.sz, s.bins[i], j, s.sz[p])
    ensures Placed(BinInto(s, p, i, j))
  {
    hide BinIndex;
    var t := BinInto(s, p, i, j);
    assert Members(s.at, s.bins[i], i);
    InsertKeepsOrder(s.sz, s.bins[i], j, p);
    InsertKeepsMembers(s.at, s.bins[i], i, j, p);
    assert |Insert(s.bins[i], j, p)| == |s.bins[i]| + 1;
    hide Insert, Descending, FitsAt, Members;
    forall k | 0 <= k < NAV ensures Members(t.at, t.bins[k], k) && Descending(t.sz, t.bins[k])
    {
      assert Members(s.at, s.bins[k], k) && Descending(s.sz, s.bins[k]);
      if k != i { MembersElsewhere(s.at, t.at, s.bins[k], k, p); }
    }
    forall q | q in t.at ensures Homed(t, q) { if q != p { assert Homed(s, q); } }
  }

  /** Steps that only touch chunks outside the lists. */
  lemma PlacingUntouched(s: Shape, t: Shape)
    requires Placed(s) && t.bins == s.bins && t.at == s.at
    requires forall p :: p in s.at ==> IsFree(t, p) && p in s.sz && t.sz[p] == s.sz[p]
    ensures Placed(t)
  {
    hide BinIndex;
    forall k | 0 <= k < NAV ensures Members(t.at, t.bins[k], k) && Descending(t.sz, t.bins[k])
    {
      assert Members(s.at, s.bins[k], k) && Descending(s.sz, s.bins[k]);
      assert forall a :: 0 <= a < |t.bins[k]| ==> IsFree(t, t.bins[k][a]) && t.sz[t.bins[k][a]] == s.sz[t.bins[k][a]];
    }
    forall q | q in t.at ensures Homed(t, q) { assert Homed(s, q) && IsFree(t, q); }
  }

  /** Cuts p after k bytes and hands out the front; the tail keeps p's status. */
  ghost function Carve(s: Shape, p: int, k: nat): Shape
    requires p in s.sz && k <= s.sz[p]
  {
    var t := Split(s, p, k);
    t.(used := t.used + (if p in s.used then {p, p + k} else {p}))
  }

  lemma CarveKeepsTiling(s: Shape, p: int, k: nat)
    requires Tiled(s) && p in s.sz && k % 8 == 0 && MINSIZE <= k && k + MINSIZE <= s.sz[p]
    ensures Tiled(Carve(s, p, k)) && p + k !in s.sz
  {
    SplitPoint(s, p, k);
    SplitKeepsTiling(s, p, k);
    hide Bounded, Apart, Linked;
  }

  lemma CarveKeepsPlacing(s: Shape, p: int, k: nat)
    requires Placed(s) && p in s.sz && p !in s.at && k <= s.sz[p] && p + k !in s.sz && s.used <= s.sz.Keys
    ensures Placed(Carve(s, p, k))
  {
    var t := Carve(s, p, k);
    forall q | q in s.at ensures IsFree(t, q) && q in s.sz && t.sz[q] == s.sz[q] { assert Homed(s, q); }
    hide Placed;
    PlacingUntouched(s, t);
  }

  lemma FuseKeepsPlacing(s: Shape, p: int, u: bool)
    requires Tiled(s) && Placed(s) && p in s.sz && p != s.top && Next(s.sz, p) in s.sz && p !in s.at && Next(s.sz, p) !in s.at
    ensures Placed(Fuse(s, p, u))
  {
    var t := Fuse(s, p, u);
    forall q | q in s.at ensures IsFree(t, q) && q in s.sz && t.sz[q] == s.sz[q] { assert Homed(s, q); }
    hide Placed, Tiled;
    PlacingUntouched(s, t);
  }

  lemma UseKeepsPlacing(s: Shape, p: int, u: bool)
    requires Placed(s) && p !in s.at
    ensures Placed(WithUse(s, p, u))
  {
    var t := WithUse(s, p, u);
    forall q | q in s.at ensures IsFree(t, q) && q in s.sz && t.sz[q] == s.sz[q] { assert Homed(s, q); }
    hide Placed;
    PlacingUntouched(s, t);
  }

  lemma ResizeTopKeepsPlacing(s: Shape, size: nat)
    requires Placed(s)
    ensures Placed(ResizeTop(s, size))
  {
    var t := ResizeTop(s, size);
    forall q | q in s.at ensures IsFree(t, q) && q in s.sz && t.sz[q] == s.sz[q] { assert Homed(s, q); }
    hide Placed;
    PlacingUntouched(s, t);
  }
}
