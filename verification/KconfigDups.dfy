/** expr_eliminate_dups: operands of one AND or OR compared pairwise inside a single tree. The
    two pointers the passes carry are paths into that tree, so that they may meet or nest. */
module KconfigDups {
  import opened KconfigLogic
  import opened KconfigTransform

  datatype Side = L | R

  type Path = seq<Side>

  predicate IsPath(e: Expr, p: Path)
    decreases |p|
  {
    p == [] || (e.Bin? && IsPath(if p[0] == L then e.left else e.right, p[1..]))
  }

  function At(e: Expr, p: Path): Expr
    requires IsPath(e, p)
    decreases |p|
  {
    if p == [] then e else At(if p[0] == L then e.left else e.right, p[1..])
  }

  function Put(e: Expr, p: Path, x: Expr): Expr
    requires IsPath(e, p)
    decreases |p|
  {
    if p == [] then x
    else if p[0] == L then Bin(e.op, Put(e.left, p[1..], x), e.right)
    else Bin(e.op, e.left, Put(e.right, p[1..], x))
  }

  predicate IsOp(op: Junction, e: Expr) { e.Bin? && e.op == op }

  /** p passes only nodes of type op: what it reaches is part of the one chain of op's at the root. */
  predicate OnChain(op: Junction, e: Expr, p: Path)
    decreases |p|
  {
    p == [] || (IsOp(op, e) && OnChain(op, if p[0] == L then e.left else e.right, p[1..]))
  }

  /** p reaches an operand of the chain. */
  predicate Operand(op: Junction, e: Expr, p: Path)
  {
    OnChain(op, e, p) && IsPath(e, p) && !IsOp(op, At(e, p))
  }

  /** The chains of op at the two roots have the same form; their operands may differ. */
  predicate SameChain(op: Junction, a: Expr, b: Expr)
  {
    if IsOp(op, a) then IsOp(op, b) && SameChain(op, a.left, b.left) && SameChain(op, a.right, b.right)
    else !IsOp(op, b)
  }

  function ChainSize(op: Junction, e: Expr): nat
  {
    if IsOp(op, e) then 1 + ChainSize(op, e.left) + ChainSize(op, e.right) else 0
  }

  // ---- paths ----

  lemma {:induction false} ChainPath(op: Junction, e: Expr, p: Path)
    requires OnChain(op, e, p)
    ensures IsPath(e, p)
    decreases |p|
  {
    if p != [] { ChainPath(op, if p[0] == L then e.left else e.right, p[1..]); }
  }

  lemma {:induction false} Extend(op: Junction, e: Expr, p: Path, d: Side)
    requires OnChain(op, e, p) && IsPath(e, p) && IsOp(op, At(e, p))
    ensures OnChain(op, e, p + [d]) && IsPath(e, p + [d])
    ensures At(e, p + [d]) == if d == L then At(e, p).left else At(e, p).right
    decreases |p|
  {
    if p == [] {
      assert p + [d] == [d] && [d][1..] == [];
    } else {
      Extend(op, if p[0] == L then e.left else e.right, p[1..], d);
      assert (p + [d])[1..] == p[1..] + [d];
    }
  }

  lemma {:induction false} SamePath(op: Junction, a: Expr, b: Expr, p: Path)
    requires SameChain(op, a, b) && OnChain(op, a, p)
    ensures OnChain(op, b, p) && IsPath(a, p) && IsPath(b, p) && SameChain(op, At(a, p), At(b, p))
    decreases |p|
  {
    if p != [] { SamePath(op, if p[0] == L then a.left else a.right, if p[0] == L then b.left else b.right, p[1..]); }
  }

  lemma {:induction false} SameChainSize(op: Junction, a: Expr, b: Expr)
    requires SameChain(op, a, b)
    ensures ChainSize(op, a) == ChainSize(op, b)
  {
    if IsOp(op, a) {
      SameChainSize(op, a.left, b.left);
      SameChainSize(op, a.right, b.right);
    }
  }

  lemma {:induction false} SameRefl(op: Junction, a: Expr)
    ensures SameChain(op, a, a)
  {
    if IsOp(op, a) {
      SameRefl(op, a.left);
      SameRefl(op, a.right);
    }
  }

  lemma {:induction false} SameTrans(op: Junction, a: Expr, b: Expr, c: Expr)
    requires SameChain(op, a, b) && SameChain(op, b, c)
    ensures SameChain(op, a, c)
  {
    if IsOp(op, a) {
      SameTrans(op, a.left, b.left, c.left);
      SameTrans(op, a.right, b.right, c.right);
    }
  }

  lemma {:induction false} PutOperand(op: Junction, e: Expr, p: Path, x: Expr)
    requires Operand(op, e, p) && !IsOp(op, x)
    ensures SameChain(op, e, Put(e, p, x)) && IsPath(Put(e, p, x), p) && At(Put(e, p, x), p) == x
    decreases |p|
  {
    if p == [] {
    } else if p[0] == L {
      PutOperand(op, e.left, p[1..], x);
      SameRefl(op, e.right);
    } else {
      PutOperand(op, e.right, p[1..], x);
      SameRefl(op, e.left);
    }
  }

  /** Replacing one operand leaves the others where they are. */
  lemma {:induction false} PutElsewhere(op: Junction, e: Expr, p: Path, q: Path, x: Expr)
    requires Operand(op, e, p) && Operand(op, e, q) && p != q && !IsOp(op, x)
    ensures Operand(op, Put(e, p, x), q) && At(Put(e, p, x), q) == At(e, q)
    decreases |p|
  {
    assert p != [] && q != [];
    if p[0] == q[0] {
      assert p == [p[0]] + p[1..] && q == [q[0]] + q[1..];
      PutElsewhere(op, if p[0] == L then e.left else e.right, p[1..], q[1..], x);
    } else {
      var f := Put(e, p, x);
      assert (if q[0] == L then f.left else f.right) == (if q[0] == L then e.left else e.right);
    }
  }

  // ---- how deeply AND and OR alternate ----

  function Max(a: nat, b: nat): nat { if a > b then a else b }

  function Rank(e: Expr): nat
    decreases e, 1
  {
    match e
    case Not(a) => 1 + Rank(a)
    case Bin(op, l, r) => 1 + Max(RankIn(op, l), RankIn(op, r))
    case _ => 0
  }

  /** The largest rank among the operands of the chain at e. */
  function RankIn(op: Junction, e: Expr): nat
    decreases e, if IsOp(op, e) then 0 else 2
  {
    if IsOp(op, e) then Max(RankIn(op, e.left), RankIn(op, e.right)) else Rank(e)
  }

  lemma {:induction false} OperandRank(op: Junction, e: Expr, p: Path)
    requires Operand(op, e, p)
    ensures Rank(At(e, p)) <= RankIn(op, e)
    decreases |p|
  {
    if p != [] { OperandRank(op, if p[0] == L then e.left else e.right, p[1..]); }
  }

  lemma {:induction false} PutRank(op: Junction, e: Expr, p: Path, x: Expr, n: nat)
    requires Operand(op, e, p) && !IsOp(op, x) && Rank(x) <= n && RankIn(op, e) <= n
    ensures RankIn(op, Put(e, p, x)) <= n
    decreases |p|
  {
    if p != [] { PutRank(op, if p[0] == L then e.left else e.right, p[1..], x, n); }
  }

  lemma {:induction false} PutLeaves(e: Expr, p: Path, x: Expr)
    requires IsPath(e, p)
    ensures Leaves(Put(e, p, x)) == Leaves(e) - Leaves(At(e, p)) + Leaves(x)
    decreases |p|
  {
    if p != [] { PutLeaves(if p[0] == L then e.left else e.right, p[1..], x); }
  }

  lemma {:induction false} ConstAt(e: Expr, p: Path)
    requires IsPath(e, p) && p != [] && (At(e, p) == Sym(Yes) || At(e, p) == Sym(No))
    ensures HasConst(e)
    decreases |p|
  {
    if |p| > 1 {
      ConstAt(if p[0] == L then e.left else e.right, p[1..]);
    } else {
      assert p[1..] == [];
    }
  }

  lemma {:induction false} PutKeepsConst(e: Expr, p: Path, x: Expr)
    requires IsPath(e, p) && At(e, p).Bin? && x.Bin? && HasConst(e) && (HasConst(At(e, p)) ==> HasConst(x))
    ensures HasConst(Put(e, p, x))
    decreases |p|
  {
    if p != [] {
      var c := if p[0] == L then e.left else e.right;
      if HasConst(c) { PutKeepsConst(c, p[1..], x); }
    }
  }

  lemma {:induction false} PutBack(e: Expr, p: Path)
    requires IsPath(e, p)
    ensures Put(e, p, At(e, p)) == e
    decreases |p|
  {
    if p != [] { PutBack(if p[0] == L then e.left else e.right, p[1..]); }
  }

  // ---- the value of a chain, operand by operand ----

  function RestOf(op: Junction, e: Expr, p: Path, v: Valuation): Tri
    requires IsPath(e, p)
    decreases |p|
  {
    if p == [] then UnitValue(op)
    else if p[0] == L then Combine(op, RestOf(op, e.left, p[1..], v), Eval(e.right, v))
    else Combine(op, RestOf(op, e.right, p[1..], v), Eval(e.left, v))
  }

  lemma CombineLaws(op: Junction, a: Tri, b: Tri, c: Tri)
    ensures Combine(op, a, b) == Combine(op, b, a)
    ensures Combine(op, a, Combine(op, b, c)) == Combine(op, Combine(op, a, b), c)
  {
  }

  lemma {:induction false} PutValue(op: Junction, e: Expr, p: Path, x: Expr, v: Valuation)
    requires OnChain(op, e, p) && IsPath(e, p)
    ensures Eval(Put(e, p, x), v) == Combine(op, Eval(x, v), RestOf(op, e, p, v))
    decreases |p|
  {
    hide Combine;
    if p == [] {
      CombineUnits(op, Eval(x, v));
    } else {
      var c, d := if p[0] == L then e.left else e.right, if p[0] == L then e.right else e.left;
      PutValue(op, c, p[1..], x, v);
      CombineLaws(op, Eval(x, v), RestOf(op, c, p[1..], v), Eval(d, v));
      CombineLaws(op, Eval(Put(c, p[1..], x), v), Eval(d, v), Eval(d, v));
    }
  }

  lemma ChainValue(op: Junction, e: Expr, p: Path, v: Valuation)
    requires OnChain(op, e, p) && IsPath(e, p)
    ensures Eval(e, v) == Combine(op, Eval(At(e, p), v), RestOf(op, e, p, v))
  {
    PutBack(e, p);
    PutValue(op, e, p, At(e, p), v);
  }

  // ---- expr_eliminate_dups1 ----

  lemma JoinShape(op: Junction, a: Expr, b: Expr)
    requires Join(op, a, b).Just?
    ensures var t := Join(op, a, b).value; t == a || (Rank(t) == 0 && Leaves(t) == 1 && !t.Bin?)
  {
    hide Eq;
  }

  /** Two operands joined: the first becomes the unit, the second the joined expression. */
  function JoinAt(op: Junction, e: Expr, p: Path, q: Path): (r: (Expr, nat))
    requires Operand(op, e, p) && Operand(op, e, q) && p != q
    ensures SameChain(op, e, r.0) && RankIn(op, r.0) <= RankIn(op, e)
  {
    match Join(op, At(e, p), At(e, q))
    case Nothing =>
      SameRefl(op, e);
      (e, 0)
    case Just(t) =>
      JoinShape(op, At(e, p), At(e, q));
      var u := Sym(Unit(op));
      PutOperand(op, e, p, u);
      PutElsewhere(op, e, p, q, u);
      OperandRank(op, e, p);
      PutRank(op, e, p, u, RankIn(op, e));
      var f := Put(e, p, u);
      PutOperand(op, f, q, t);
      PutRank(op, f, q, t, RankIn(op, e));
      SameTrans(op, e, f, Put(f, q, t));
      (Put(f, q, t), 1)
  }

  lemma JoinAtExact(op: Junction, e: Expr, p: Path, q: Path, v: Valuation)
    requires Operand(op, e, p) && Operand(op, e, q) && p != q
    ensures Eval(JoinAt(op, e, p, q).0, v) == Eval(e, v)
  {
    hide Combine, Join;
    var a, b := At(e, p), At(e, q);
    if Join(op, a, b).Just? {
      var t, u := Join(op, a, b).value, Sym(Unit(op));
      JoinExact(op, a, b, v);
      PutOperand(op, e, p, u);
      PutElsewhere(op, e, p, q, u);
      var f := Put(e, p, u);
      ChainValue(op, e, p, v);
      PutValue(op, e, p, u, v);
      CombineUnits(op, RestOf(op, e, p, v));
      ChainValue(op, f, q, v);
      PutValue(op, f, q, t, v);
      CombineLaws(op, Eval(a, v), Eval(b, v), RestOf(op, f, q, v));
    }
  }

  lemma JoinAtLeaves(op: Junction, e: Expr, p: Path, q: Path)
    requires Operand(op, e, p) && Operand(op, e, q) && p != q
    ensures var (f, n) := JoinAt(op, e, p, q);
            Leaves(f) <= Leaves(e) && (n > 0 ==> HasConst(f)) && (HasConst(e) ==> HasConst(f)) && (n == 0 ==> f == e)
  {
    hide Join;
    var a, b := At(e, p), At(e, q);
    if Join(op, a, b).Just? {
      var t, u := Join(op, a, b).value, Sym(Unit(op));
      JoinShape(op, a, b);
      PutOperand(op, e, p, u);
      PutElsewhere(op, e, p, q, u);
      PutLeaves(e, p, u);
      var f := Put(e, p, u);
      PutLeaves(f, q, t);
      SamePath(op, e, f, p);
      PutElsewhere(op, f, q, p, t);
      assert p != [];
      ConstAt(Put(f, q, t), p);
    }
  }

  /** expr_eliminate_dups1 on the operands p and q of one tree, with the number of joins made. */
  function Dups1(op: Junction, e: Expr, p: Path, q: Path): (r: (Expr, nat))
    requires OnChain(op, e, p) && OnChain(op, e, q) && IsPath(e, p) && IsPath(e, q)
    ensures SameChain(op, e, r.0) && RankIn(op, r.0) <= RankIn(op, e)
    decreases RankIn(op, e), ChainSize(op, At(e, p)) + ChainSize(op, At(e, q))
  {
    if IsOp(op, At(e, p)) then
      Extend(op, e, p, L);
      Extend(op, e, p, R);
      var (f, n) := Dups1(op, e, p + [L], q);
      Follow(op, e, f, p + [R]);
      Follow(op, e, f, q);
      var (g, k) := Dups1(op, f, p + [R], q);
      SameTrans(op, e, f, g);
      (g, n + k)
    else if IsOp(op, At(e, q)) then
      Extend(op, e, q, L);
      Extend(op, e, q, R);
      var (f, n) := Dups1(op, e, p, q + [L]);
      Follow(op, e, f, p);
      Follow(op, e, f, q + [R]);
      var (g, k) := Dups1(op, f, p, q + [R]);
      SameTrans(op, e, f, g);
      (g, n + k)
    else if p == q then
      SameRefl(op, e);
      (e, 0)
    else if At(e, p).Bin? then
      OperandRank(op, e, p);
      var a := At(e, p);
      var (x, n) := Dups1(a.op, a, [], []);
      Nest(op, e, p, x);
      PutElsewhere(op, e, p, q, x);
      var f := Put(e, p, x);
      var (g, k) := JoinAt(op, f, p, q);
      SameTrans(op, e, f, g);
      (g, n + k)
    else JoinAt(op, e, p, q)
  }

  /** A path is as good after a pass as before it. */
  lemma Follow(op: Junction, e: Expr, f: Expr, p: Path)
    requires SameChain(op, e, f) && OnChain(op, e, p) && IsPath(e, p)
    ensures OnChain(op, f, p) && IsPath(f, p) && ChainSize(op, At(f, p)) == ChainSize(op, At(e, p))
    ensures IsOp(op, At(f, p)) <==> IsOp(op, At(e, p))
  {
    SamePath(op, e, f, p);
    SameChainSize(op, At(e, p), At(f, p));
  }

  /** An operand rewritten by a pass over its own chain. */
  lemma Nest(op: Junction, e: Expr, p: Path, x: Expr)
    requires Operand(op, e, p) && At(e, p).Bin?
    requires SameChain(At(e, p).op, At(e, p), x) && RankIn(At(e, p).op, x) <= RankIn(At(e, p).op, At(e, p))
    ensures x.Bin? && x.op == At(e, p).op && !IsOp(op, x)
    ensures SameChain(op, e, Put(e, p, x)) && RankIn(op, Put(e, p, x)) <= RankIn(op, e)
    ensures Operand(op, Put(e, p, x), p) && At(Put(e, p, x), p) == x
  {
    PutOperand(op, e, p, x);
    OperandRank(op, e, p);
    PutRank(op, e, p, x, RankIn(op, e));
    SamePath(op, e, Put(e, p, x), p);
  }

  /** The pass over pairs of operands never changes the value, for any tristate valuation. */
  lemma {:induction false} Dups1Exact(op: Junction, e: Expr, p: Path, q: Path, v: Valuation)
    requires OnChain(op, e, p) && OnChain(op, e, q) && IsPath(e, p) && IsPath(e, q)
    ensures Eval(Dups1(op, e, p, q).0, v) == Eval(e, v)
    decreases RankIn(op, e), ChainSize(op, At(e, p)) + ChainSize(op, At(e, q))
  {
    hide JoinAt, Combine;
    if IsOp(op, At(e, p)) {
      Extend(op, e, p, L);
      Extend(op, e, p, R);
      var f := Dups1(op, e, p + [L], q).0;
      Follow(op, e, f, p + [R]);
      Follow(op, e, f, q);
      Dups1Exact(op, e, p + [L], q, v);
      Dups1Exact(op, f, p + [R], q, v);
    } else if IsOp(op, At(e, q)) {
      Extend(op, e, q, L);
      Extend(op, e, q, R);
      var f := Dups1(op, e, p, q + [L]).0;
      Follow(op, e, f, p);
      Follow(op, e, f, q + [R]);
      Dups1Exact(op, e, p, q + [L], v);
      Dups1Exact(op, f, p, q + [R], v);
    } else if p != q {
      if At(e, p).Bin? {
        OperandRank(op, e, p);
        var a := At(e, p);
        var x := Dups1(a.op, a, [], []).0;
        Dups1Exact(a.op, a, [], [], v);
        Nest(op, e, p, x);
        PutElsewhere(op, e, p, q, x);
        ChainValue(op, e, p, v);
        PutValue(op, e, p, x, v);
        JoinAtExact(op, Put(e, p, x), p, q, v);
      } else {
        JoinAtExact(op, e, p, q, v);
      }
    }
  }

  /** No pass adds leaves; a counted change leaves a constant operand for expr_eliminate_yn to
      drop; without one the tree is as it was. */
  ghost predicate Shrinks(e: Expr, f: Expr, n: nat)
  {
    && Leaves(f) <= Leaves(e) && (n > 0 ==> HasConst(f)) && (HasConst(e) ==> HasConst(f)) && (n == 0 ==> f == e)
  }

  lemma ShrinksTrans(e: Expr, f: Expr, g: Expr, n: nat, k: nat)
    requires Shrinks(e, f, n) && Shrinks(f, g, k)
    ensures Shrinks(e, g, n + k)
  {
  }

  lemma NestShrinks(op: Junction, e: Expr, p: Path, x: Expr, n: nat)
    requires Operand(op, e, p) && At(e, p).Bin? && x.Bin? && Shrinks(At(e, p), x, n)
    ensures Shrinks(e, Put(e, p, x), n)
  {
    PutLeaves(e, p, x);
    if n == 0 { PutBack(e, p); }
    if HasConst(e) { PutKeepsConst(e, p, x); }
    if n > 0 { PutHasConst(e, p, x); }
  }

  lemma {:induction false} PutHasConst(e: Expr, p: Path, x: Expr)
    requires IsPath(e, p) && HasConst(x)
    ensures HasConst(Put(e, p, x))
    decreases |p|
  {
    if p != [] { PutHasConst(if p[0] == L then e.left else e.right, p[1..], x); }
  }

  lemma {:induction false} Dups1Shrinks(op: Junction, e: Expr, p: Path, q: Path)
    requires OnChain(op, e, p) && OnChain(op, e, q) && IsPath(e, p) && IsPath(e, q)
    ensures Shrinks(e, Dups1(op, e, p, q).0, Dups1(op, e, p, q).1)
    decreases RankIn(op, e), ChainSize(op, At(e, p)) + ChainSize(op, At(e, q))
  {
    hide JoinAt, Leaves, HasConst;
    if IsOp(op, At(e, p)) {
      Extend(op, e, p, L);
      Extend(op, e, p, R);
      var (f, n) := Dups1(op, e, p + [L], q);
      Follow(op, e, f, p + [R]);
      Follow(op, e, f, q);
      Dups1Shrinks(op, e, p + [L], q);
      Dups1Shrinks(op, f, p + [R], q);
    } else if IsOp(op, At(e, q)) {
      Extend(op, e, q, L);
      Extend(op, e, q, R);
      var (f, n) := Dups1(op, e, p, q + [L]);
      Follow(op, e, f, p);
      Follow(op, e, f, q + [R]);
      Dups1Shrinks(op, e, p, q + [L]);
      Dups1Shrinks(op, f, p, q + [R]);
    } else if p != q {
      if At(e, p).Bin? {
        OperandRank(op, e, p);
        var a := At(e, p);
        var (x, n) := Dups1(a.op, a, [], []);
        Dups1Shrinks(a.op, a, [], []);
        Nest(op, e, p, x);
        NestShrinks(op, e, p, x, n);
        PutElsewhere(op, e, p, q, x);
        JoinAtLeaves(op, Put(e, p, x), p, q);
      } else {
        JoinAtLeaves(op, e, p, q);
      }
    }
  }

  // ---- expr_extract_eq ----

  function Both(op: Junction, acc: Maybe<Expr>, e: Expr): Maybe<Expr>
  {
    if acc.Just? then Just(Bin(op, acc.value, e)) else Just(e)
  }

  function AccValue(op: Junction, acc: Maybe<Expr>, v: Valuation): Tri
  {
    if acc.Just? then Eval(acc.value, v) else UnitValue(op)
  }

  /** expr_extract_eq: operands found on both sides move to acc, the unit taking their places. */
  function ExtractEq(op: Junction, acc: Maybe<Expr>, a: Expr, b: Expr): (r: (Maybe<Expr>, Expr, Expr))
    ensures Size(r.1) <= Size(a) && Size(r.2) <= Size(b)
    decreases Size(a) + Size(b)
  {
    if IsOp(op, a) then
      var (c1, l, b1) := ExtractEq(op, acc, a.left, b);
      var (c2, r, b2) := ExtractEq(op, c1, a.right, b1);
      (c2, Bin(op, l, r), b2)
    else if IsOp(op, b) then
      var (c1, a1, l) := ExtractEq(op, acc, a, b.left);
      var (c2, a2, r) := ExtractEq(op, c1, a1, b.right);
      (c2, a2, Bin(op, l, r))
    else if Eq(a, b) then (Both(op, acc, a), Sym(Unit(op)), Sym(Unit(op)))
    else (acc, a, b)
  }

  /** What was extracted, combined with what is left, gives back each side. */
  lemma {:induction false} ExtractEqSplits(op: Junction, acc: Maybe<Expr>, a: Expr, b: Expr, v: Valuation) returns (c: Tri)
    ensures var (acc2, x, y) := ExtractEq(op, acc, a, b);
            Shares(op, a, b, x, y, v, c) && AccValue(op, acc2, v) == Combine(op, AccValue(op, acc, v), c)
    decreases Size(a) + Size(b)
  {
    hide Combine, Shared, Eq, UnitValue, Unit;
    if IsOp(op, a) {
      var (t1, l, b1) := ExtractEq(op, acc, a.left, b);
      var (t2, r, b2) := ExtractEq(op, t1, a.right, b1);
      var c1 := ExtractEqSplits(op, acc, a.left, b, v);
      var c2 := ExtractEqSplits(op, t1, a.right, b1, v);
      c := Combine(op, c1, c2);
      SharedTwice(op, Eval(a.left, v), Eval(a.right, v), Eval(b, v), Eval(l, v), Eval(r, v), Eval(b1, v), Eval(b2, v), c1, c2);
      CombineLaws(op, AccValue(op, acc, v), c1, c2);
    } else if IsOp(op, b) {
      var (t1, a1, l) := ExtractEq(op, acc, a, b.left);
      var (t2, a2, r) := ExtractEq(op, t1, a1, b.right);
      var c1 := ExtractEqSplits(op, acc, a, b.left, v);
      var c2 := ExtractEqSplits(op, t1, a1, b.right, v);
      c := Combine(op, c1, c2);
      SharedTurned(op, Eval(a, v), Eval(b.left, v), Eval(a1, v), Eval(l, v), c1);
      SharedTurned(op, Eval(a1, v), Eval(b.right, v), Eval(a2, v), Eval(r, v), c2);
      SharedTwice(op, Eval(b.left, v), Eval(b.right, v), Eval(a, v), Eval(l, v), Eval(r, v), Eval(a1, v), Eval(a2, v), c1, c2);
      CombineLaws(op, AccValue(op, acc, v), c1, c2);
    } else {
      c := ExtractHere(op, acc, a, b, v);
    }
  }

  lemma ExtractHere(op: Junction, acc: Maybe<Expr>, a: Expr, b: Expr, v: Valuation) returns (c: Tri)
    requires !IsOp(op, a) && !IsOp(op, b)
    ensures var (acc2, x, y) := ExtractEq(op, acc, a, b);
            Shares(op, a, b, x, y, v, c) && AccValue(op, acc2, v) == Combine(op, AccValue(op, acc, v), c)
  {
    hide Combine, Shared, Eq, UnitValue, Unit;
    if Eq(a, b) {
      EqSound(a, b, v);
      c := Eval(a, v);
      SharedAll(op, c);
      CombineUnits(op, c);
    } else {
      c := UnitValue(op);
      SharedNothing(op, Eval(a, v), Eval(b, v));
    }
    CombineUnits(op, AccValue(op, acc, v));
  }

  // ---- expr_eliminate_dups2 ----

  /** All of !x's operands occur in b: b is at odds with x. */
  predicate Contradicts(op: Junction, x: Expr, b: Expr)
  {
    var (acc, t, _) := ExtractEq(op, Nothing, Transform(Not(x)), b);
    (if acc.Just? then EliminateYn(t) else t) == Sym(Unit(op))
  }

  /** The value an AND (OR) cannot exceed (undercut) when b is one of its parts. */
  predicate Bounds(op: Junction, e: Tri, b: Tri)
  {
    if op.AndOp? then e <= b else e >= b
  }

  /** What is left of !x after the extraction has the unit's value. */
  lemma LeftoverIsUnit(op: Junction, acc: Maybe<Expr>, t: Expr, v: Valuation)
    requires (if acc.Just? then EliminateYn(t) else t) == Sym(Unit(op))
    ensures Eval(t, v) == UnitValue(op)
  {
    EliminateYnPreserves(t, v);
    hide EliminateYn;
  }

  lemma ContradictsBounds(op: Junction, x: Expr, b: Expr, v: Valuation)
    requires Contradicts(op, x, b)
    ensures Bounds(op, Eval(b, v), 2 - Eval(x, v))
  {
    hide Transform, ExtractEq, EliminateYn, Combine, Eval, UnitValue, Unit;
    var n := Transform(Not(x));
    var (acc, t, u) := ExtractEq(op, Nothing, n, b);
    var c := ExtractEqSplits(op, Nothing, n, b, v);
    TransformPreserves(Not(x), v);
    NotValue(x, v);
    LeftoverIsUnit(op, acc, t, v);
    CombineUnits(op, c);
    CombineBounds(op, c, Eval(u, v));
  }

  lemma NotValue(x: Expr, v: Valuation)
    ensures Eval(Not(x), v) == 2 - Eval(x, v)
  {
  }

  lemma CombineBounds(op: Junction, c: Tri, u: Tri)
    ensures Bounds(op, Combine(op, c, u), c)
  {
  }

  function Zero(op: Junction): Symbol { if op.OrOp? then Yes else No }

  /** expr_eliminate_dups2 on the operands p and q of one tree, with the number of changes made. */
  function Dups2(op: Junction, e: Expr, p: Path, q: Path): (r: (Expr, nat))
    requires OnChain(op, e, p) && OnChain(op, e, q) && IsPath(e, p) && IsPath(e, q)
    ensures SameChain(op, e, r.0) && RankIn(op, r.0) <= RankIn(op, e)
    decreases RankIn(op, e), ChainSize(op, At(e, p)) + ChainSize(op, At(e, q)), 1
  {
    if IsOp(op, At(e, p)) then
      Extend(op, e, p, L);
      Extend(op, e, p, R);
      var (f, n) := Dups2(op, e, p + [L], q);
      Follow(op, e, f, p + [R]);
      Follow(op, e, f, q);
      var (g, k) := Dups2(op, f, p + [R], q);
      SameTrans(op, e, f, g);
      (g, n + k)
    else if IsOp(op, At(e, q)) then
      // Unlike the first pass this one goes on with q itself after its two sides.
      Extend(op, e, q, L);
      Extend(op, e, q, R);
      var (f, n) := Dups2(op, e, p, q + [L]);
      Follow(op, e, f, p);
      Follow(op, e, f, q + [R]);
      var (g, k) := Dups2(op, f, p, q + [R]);
      SameTrans(op, e, f, g);
      Follow(op, e, g, p);
      Follow(op, e, g, q);
      var (h, j) := Dups2Here(op, g, p, q);
      SameTrans(op, e, g, h);
      (h, n + k + j)
    else Dups2Here(op, e, p, q)
  }

  function Dups2Here(op: Junction, e: Expr, p: Path, q: Path): (r: (Expr, nat))
    requires OnChain(op, e, p) && OnChain(op, e, q) && IsPath(e, p) && IsPath(e, q) && !IsOp(op, At(e, p))
    ensures SameChain(op, e, r.0) && RankIn(op, r.0) <= RankIn(op, e)
    decreases RankIn(op, e), ChainSize(op, At(e, p)) + ChainSize(op, At(e, q)), 0
  {
    if p == q || !At(e, p).Bin? then
      SameRefl(op, e);
      (e, 0)
    else
      OperandRank(op, e, p);
      var a := At(e, p);
      var (x, n) := Dups2(a.op, a, [], []);
      Nest(op, e, p, x);
      var f := Put(e, p, x);
      Follow(op, e, f, q);
      if Contradicts(op, x, At(f, q)) then
        var z := Sym(Zero(op));
        PutOperand(op, f, p, z);
        PutRank(op, f, p, z, RankIn(op, e));
        SameTrans(op, e, f, Put(f, p, z));
        (Put(f, p, z), n + 1)
      else (f, n)
  }

  /** b agrees with a wherever a is definite. */
  ghost predicate Settles(a: Tri, b: Tri) { a != MOD ==> b == a }

  lemma {:induction false} PartBounds(op: Junction, e: Expr, q: Path, v: Valuation)
    requires OnChain(op, e, q) && IsPath(e, q)
    ensures Bounds(op, Eval(e, v), Eval(At(e, q), v))
  {
    ChainValue(op, e, q, v);
  }

  lemma CombineSettles(op: Junction, a: Tri, b: Tri, c: Tri)
    requires Settles(a, b)
    ensures Settles(Combine(op, a, c), Combine(op, b, c))
  {
  }

  lemma ZeroSettles(op: Junction, e: Tri, x: Tri, b: Tri, z: Tri)
    requires Bounds(op, e, b) && Bounds(op, e, x) && Bounds(op, b, 2 - x) && z == if op.OrOp? then YES else NO
    ensures Settles(e, z)
  {
  }

  lemma ZeroAbsorbs(op: Junction, c: Tri, v: Valuation)
    ensures Combine(op, SymTri(Zero(op), v), c) == if op.OrOp? then YES else NO
  {
  }

  function ZeroValue(op: Junction): Tri { if op.OrOp? then YES else NO }

  /** Dropping an operand that the rest contradicts leaves n (y), which is the value there was
      exactly when that was not m. */
  lemma ZeroAtSettles(op: Junction, e: Expr, p: Path, q: Path, v: Valuation)
    requires OnChain(op, e, p) && OnChain(op, e, q) && IsPath(e, p) && IsPath(e, q) && Contradicts(op, At(e, p), At(e, q))
    ensures Eval(Put(e, p, Sym(Zero(op))), v) == ZeroValue(op)
    ensures Eval(Put(e, p, Sym(Zero(op))), v) == Eval(e, v) <==> Eval(e, v) != MOD
  {
    hide Combine, Contradicts, Zero;
    ContradictsBounds(op, At(e, p), At(e, q), v);
    PartBounds(op, e, p, v);
    PartBounds(op, e, q, v);
    PutValue(op, e, p, Sym(Zero(op)), v);
    ZeroAbsorbs(op, RestOf(op, e, p, v), v);
    ZeroSettles(op, Eval(e, v), Eval(At(e, p), v), Eval(At(e, q), v), Eval(Put(e, p, Sym(Zero(op))), v));
  }

  /** What happens where the second pass compares operand p, itself gone over first, with q: a
      contradiction found there changes the value exactly if that is m at that moment, and if none
      is found the tree stays. */
  lemma Dups2HereExactly(op: Junction, e: Expr, p: Path, q: Path, v: Valuation)
    requires OnChain(op, e, p) && OnChain(op, e, q) && IsPath(e, p) && IsPath(e, q) && !IsOp(op, At(e, p))
    requires p != q && At(e, p).Bin?
    ensures var f, g := GoneOver(op, e, p), Dups2Here(op, e, p, q).0;
            && SameChain(op, e, f) && OnChain(op, f, q) && IsPath(f, q) && IsPath(f, p)
            && Eval(f, v) == Combine(op, Eval(At(f, p), v), RestOf(op, e, p, v))
            && if Contradicts(op, At(f, p), At(f, q)) then Eval(g, v) == ZeroValue(op) && (Eval(g, v) == Eval(f, v) <==> Eval(f, v) != MOD)
               else g == f
  {
    hide Contradicts, Combine, Zero, Dups2;
    OperandRank(op, e, p);
    var a := At(e, p);
    var x := Dups2(a.op, a, [], []).0;
    Nest(op, e, p, x);
    var f := Put(e, p, x);
    Follow(op, e, f, q);
    PutValue(op, e, p, x, v);
    if Contradicts(op, x, At(f, q)) { ZeroAtSettles(op, f, p, q, v); }
  }

  /** The tree once the pass has gone over operand p itself. */
  function GoneOver(op: Junction, e: Expr, p: Path): Expr
    requires OnChain(op, e, p) && IsPath(e, p) && At(e, p).Bin?
  {
    Put(e, p, Dups2(At(e, p).op, At(e, p), [], []).0)
  }

  lemma GoneOverKeeps(op: Junction, e: Expr, p: Path, q: Path)
    requires OnChain(op, e, p) && OnChain(op, e, q) && IsPath(e, p) && IsPath(e, q) && !IsOp(op, At(e, p)) && At(e, p).Bin?
    ensures var f := GoneOver(op, e, p);
            IsPath(f, p) && IsPath(f, q) && OnChain(op, f, q)
  {
    OperandRank(op, e, p);
    Nest(op, e, p, Dups2(At(e, p).op, At(e, p), [], []).0);
    Follow(op, e, GoneOver(op, e, p), q);
  }

  /** The second pass never changes a definite value. */
  lemma {:induction false} Dups2Settles(op: Junction, e: Expr, p: Path, q: Path, v: Valuation)
    requires OnChain(op, e, p) && OnChain(op, e, q) && IsPath(e, p) && IsPath(e, q)
    ensures Settles(Eval(e, v), Eval(Dups2(op, e, p, q).0, v))
    decreases RankIn(op, e), ChainSize(op, At(e, p)) + ChainSize(op, At(e, q)), 1
  {
    hide Dups2Here, Combine;
    if IsOp(op, At(e, p)) {
      Extend(op, e, p, L);
      Extend(op, e, p, R);
      var f := Dups2(op, e, p + [L], q).0;
      Follow(op, e, f, p + [R]);
      Follow(op, e, f, q);
      Dups2Settles(op, e, p + [L], q, v);
      Dups2Settles(op, f, p + [R], q, v);
    } else if IsOp(op, At(e, q)) {
      Extend(op, e, q, L);
      Extend(op, e, q, R);
      var f := Dups2(op, e, p, q + [L]).0;
      Follow(op, e, f, p);
      Follow(op, e, f, q + [R]);
      var g := Dups2(op, f, p, q + [R]).0;
      SameTrans(op, e, f, g);
      Follow(op, e, g, p);
      Follow(op, e, g, q);
      Dups2Settles(op, e, p, q + [L], v);
      Dups2Settles(op, f, p, q + [R], v);
      Dups2HereSettles(op, g, p, q, v);
    } else {
      Dups2HereSettles(op, e, p, q, v);
    }
  }

  lemma {:induction false} Dups2HereSettles(op: Junction, e: Expr, p: Path, q: Path, v: Valuation)
    requires OnChain(op, e, p) && OnChain(op, e, q) && IsPath(e, p) && IsPath(e, q) && !IsOp(op, At(e, p))
    ensures Settles(Eval(e, v), Eval(Dups2Here(op, e, p, q).0, v))
    decreases RankIn(op, e), ChainSize(op, At(e, p)) + ChainSize(op, At(e, q)), 0
  {
    hide Contradicts, Combine, Zero;
    if p != q && At(e, p).Bin? {
      OperandRank(op, e, p);
      var a := At(e, p);
      var x := Dups2(a.op, a, [], []).0;
      Dups2Settles(a.op, a, [], [], v);
      Nest(op, e, p, x);
      var f := Put(e, p, x);
      Follow(op, e, f, q);
      ChainValue(op, e, p, v);
      PutValue(op, e, p, x, v);
      CombineSettles(op, Eval(a, v), Eval(x, v), RestOf(op, e, p, v));
      if Contradicts(op, x, At(f, q)) { ZeroAtSettles(op, f, p, q, v); }
    }
  }

  lemma {:induction false} Dups2Shrinks(op: Junction, e: Expr, p: Path, q: Path)
    requires OnChain(op, e, p) && OnChain(op, e, q) && IsPath(e, p) && IsPath(e, q)
    ensures Shrinks(e, Dups2(op, e, p, q).0, Dups2(op, e, p, q).1)
    decreases RankIn(op, e), ChainSize(op, At(e, p)) + ChainSize(op, At(e, q)), 1
  {
    hide Dups2Here, Leaves, HasConst;
    if IsOp(op, At(e, p)) {
      Extend(op, e, p, L);
      Extend(op, e, p, R);
      var f := Dups2(op, e, p + [L], q).0;
      Follow(op, e, f, p + [R]);
      Follow(op, e, f, q);
      Dups2Shrinks(op, e, p + [L], q);
      Dups2Shrinks(op, f, p + [R], q);
    } else if IsOp(op, At(e, q)) {
      Extend(op, e, q, L);
      Extend(op, e, q, R);
      var f := Dups2(op, e, p, q + [L]).0;
      Follow(op, e, f, p);
      Follow(op, e, f, q + [R]);
      var g := Dups2(op, f, p, q + [R]).0;
      SameTrans(op, e, f, g);
      Follow(op, e, g, p);
      Follow(op, e, g, q);
      Dups2Shrinks(op, e, p, q + [L]);
      Dups2Shrinks(op, f, p, q + [R]);
      Dups2HereShrinks(op, g, p, q);
    } else {
      Dups2HereShrinks(op, e, p, q);
    }
  }

  lemma {:induction false} Dups2HereShrinks(op: Junction, e: Expr, p: Path, q: Path)
    requires OnChain(op, e, p) && OnChain(op, e, q) && IsPath(e, p) && IsPath(e, q) && !IsOp(op, At(e, p))
    ensures Shrinks(e, Dups2Here(op, e, p, q).0, Dups2Here(op, e, p, q).1)
    decreases RankIn(op, e), ChainSize(op, At(e, p)) + ChainSize(op, At(e, q)), 0
  {
    hide Contradicts, Leaves, HasConst;
    if p != q && At(e, p).Bin? {
      OperandRank(op, e, p);
      var a := At(e, p);
      var (x, n) := Dups2(a.op, a, [], []);
      Dups2Shrinks(a.op, a, [], []);
      Nest(op, e, p, x);
      NestShrinks(op, e, p, x, n);
      var f := Put(e, p, x);
      Follow(op, e, f, q);
      if Contradicts(op, x, At(f, q)) { ZeroAtShrinks(op, f, p, q); }
    }
  }

  lemma ZeroAtShrinks(op: Junction, e: Expr, p: Path, q: Path)
    requires Operand(op, e, p) && OnChain(op, e, q) && p != q && At(e, p).Bin?
    ensures Shrinks(e, Put(e, p, Sym(Zero(op))), 1)
  {
    var z := Sym(Zero(op));
    assert p != [];
    PutLeaves(e, p, z);
    PutOperand(op, e, p, z);
    ConstAt(Put(e, p, z), p);
  }

  // ---- when the second pass changes m ----

  /** Going over operand p makes the chain's value t: p has the value m, a contradiction within p
      settles that at u, and the other operands let u through as t. */
  ghost predicate WithinSettlesAt(op: Junction, e: Expr, p: Path, v: Valuation, t: Tri)
    requires OnChain(op, e, p) && IsPath(e, p) && !IsOp(op, At(e, p)) && At(e, p).Bin?
    decreases Rank(At(e, p)), 0, 0
  {
    var a := At(e, p);
    Eval(a, v) == MOD && exists u :: (u == NO || u == YES) && SettlesAt(a.op, a, [], [], v, u) && Combine(op, u, RestOf(op, e, p, v)) == t
  }

  /** The pass over the operands p and q first makes a value of m definite by making it t: in the
      order of its steps, going over an operand settles it or a contradiction is found. */
  ghost predicate SettlesAt(op: Junction, e: Expr, p: Path, q: Path, v: Valuation, t: Tri)
    requires OnChain(op, e, p) && OnChain(op, e, q) && IsPath(e, p) && IsPath(e, q)
    decreases RankIn(op, e), ChainSize(op, At(e, p)) + ChainSize(op, At(e, q)), 2
  {
    if IsOp(op, At(e, p)) then
      Extend(op, e, p, L);
      Extend(op, e, p, R);
      var f := Dups2(op, e, p + [L], q).0;
      Follow(op, e, f, p + [R]);
      Follow(op, e, f, q);
      SettlesAt(op, e, p + [L], q, v, t) || (!SettlesAny(op, e, p + [L], q, v) && SettlesAt(op, f, p + [R], q, v, t))
    else if IsOp(op, At(e, q)) then
      Extend(op, e, q, L);
      Extend(op, e, q, R);
      var f := Dups2(op, e, p, q + [L]).0;
      Follow(op, e, f, p);
      Follow(op, e, f, q + [R]);
      var g := Dups2(op, f, p, q + [R]).0;
      SameTrans(op, e, f, g);
      Follow(op, e, g, p);
      Follow(op, e, g, q);
      || SettlesAt(op, e, p, q + [L], v, t)
      || (!SettlesAny(op, e, p, q + [L], v) && SettlesAt(op, f, p, q + [R], v, t))
      || (!SettlesAny(op, e, p, q + [L], v) && !SettlesAny(op, f, p, q + [R], v) && HereSettlesAt(op, g, p, q, v, t))
    else HereSettlesAt(op, e, p, q, v, t)
  }

  ghost predicate SettlesAny(op: Junction, e: Expr, p: Path, q: Path, v: Valuation)
    requires OnChain(op, e, p) && OnChain(op, e, q) && IsPath(e, p) && IsPath(e, q)
    decreases RankIn(op, e), ChainSize(op, At(e, p)) + ChainSize(op, At(e, q)), 3
  {
    SettlesAt(op, e, p, q, v, NO) || SettlesAt(op, e, p, q, v, YES)
  }

  ghost predicate HereSettlesAt(op: Junction, e: Expr, p: Path, q: Path, v: Valuation, t: Tri)
    requires OnChain(op, e, p) && OnChain(op, e, q) && IsPath(e, p) && IsPath(e, q) && !IsOp(op, At(e, p))
    decreases RankIn(op, e), ChainSize(op, At(e, p)) + ChainSize(op, At(e, q)), 1
  {
    p != q && At(e, p).Bin? && (
      OperandRank(op, e, p);
      GoneOverKeeps(op, e, p, q);
      var f := GoneOver(op, e, p);
      || WithinSettlesAt(op, e, p, v, t)
      || (!WithinSettlesAt(op, e, p, v, NO) && !WithinSettlesAt(op, e, p, v, YES) && Contradicts(op, At(f, p), At(f, q)) && t == ZeroValue(op)))
  }

  /** SettlesAt is exact: a value of m becomes t in the pass exactly when it says so. */
  lemma {:induction false} SettlesAtExactly(op: Junction, e: Expr, p: Path, q: Path, v: Valuation, t: Tri)
    requires OnChain(op, e, p) && OnChain(op, e, q) && IsPath(e, p) && IsPath(e, q) && Eval(e, v) == MOD && t != MOD
    ensures Eval(Dups2(op, e, p, q).0, v) == t <==> SettlesAt(op, e, p, q, v, t)
    decreases RankIn(op, e), ChainSize(op, At(e, p)) + ChainSize(op, At(e, q)), 2
  {
    hide Dups2Here, Combine, HereSettlesAt;
    if IsOp(op, At(e, p)) {
      Extend(op, e, p, L);
      Extend(op, e, p, R);
      var f := Dups2(op, e, p + [L], q).0;
      Follow(op, e, f, p + [R]);
      Follow(op, e, f, q);
      SettlesOrNot(op, e, p + [L], q, v);
      Dups2Settles(op, f, p + [R], q, v);
      if Eval(f, v) == MOD { SettlesAtExactly(op, f, p + [R], q, v, t); }
      SettlesAtExactly(op, e, p + [L], q, v, t);
    } else if IsOp(op, At(e, q)) {
      Extend(op, e, q, L);
      Extend(op, e, q, R);
      var f := Dups2(op, e, p, q + [L]).0;
      Follow(op, e, f, p);
      Follow(op, e, f, q + [R]);
      var g := Dups2(op, f, p, q + [R]).0;
      SameTrans(op, e, f, g);
      Follow(op, e, g, p);
      Follow(op, e, g, q);
      SettlesOrNot(op, e, p, q + [L], v);
      SettlesAtExactly(op, e, p, q + [L], v, t);
      Dups2Settles(op, f, p, q + [R], v);
      Dups2HereSettles(op, g, p, q, v);
      if Eval(f, v) == MOD {
        SettlesOrNot(op, f, p, q + [R], v);
        SettlesAtExactly(op, f, p, q + [R], v, t);
        if Eval(g, v) == MOD { HereSettlesAtExactly(op, g, p, q, v, t); }
      }
    } else {
      HereSettlesAtExactly(op, e, p, q, v, t);
    }
  }

  lemma SettlesOrNot(op: Junction, e: Expr, p: Path, q: Path, v: Valuation)
    requires OnChain(op, e, p) && OnChain(op, e, q) && IsPath(e, p) && IsPath(e, q) && Eval(e, v) == MOD
    ensures Eval(Dups2(op, e, p, q).0, v) != MOD <==> SettlesAny(op, e, p, q, v)
    decreases RankIn(op, e), ChainSize(op, At(e, p)) + ChainSize(op, At(e, q)), 3
  {
    SettlesAtExactly(op, e, p, q, v, NO);
    SettlesAtExactly(op, e, p, q, v, YES);
    hide SettlesAt, Dups2, Eval;
  }

  lemma WithinSettlesAtExactly(op: Junction, e: Expr, p: Path, v: Valuation, t: Tri)
    requires OnChain(op, e, p) && IsPath(e, p) && !IsOp(op, At(e, p)) && At(e, p).Bin? && Eval(e, v) == MOD && t != MOD
    ensures Eval(GoneOver(op, e, p), v) == t <==> WithinSettlesAt(op, e, p, v, t)
    decreases Rank(At(e, p)), 0, 0
  {
    hide Combine, SettlesAt, Dups2;
    var a := At(e, p);
    var x := Dups2(a.op, a, [], []).0;
    ChainValue(op, e, p, v);
    PutValue(op, e, p, x, v);
    Dups2Settles(a.op, a, [], [], v);
    if Eval(a, v) == MOD {
      SettlesAtExactly(a.op, a, [], [], v, NO);
      SettlesAtExactly(a.op, a, [], [], v, YES);
    }
  }

  lemma HereSettlesAtExactly(op: Junction, e: Expr, p: Path, q: Path, v: Valuation, t: Tri)
    requires OnChain(op, e, p) && OnChain(op, e, q) && IsPath(e, p) && IsPath(e, q) && !IsOp(op, At(e, p)) && Eval(e, v) == MOD && t != MOD
    ensures Eval(Dups2Here(op, e, p, q).0, v) == t <==> HereSettlesAt(op, e, p, q, v, t)
    decreases RankIn(op, e), ChainSize(op, At(e, p)) + ChainSize(op, At(e, q)), 1
  {
    hide Combine, Contradicts, Dups2, WithinSettlesAt, Dups2Here;
    if p == q || !At(e, p).Bin? {
      HereStays(op, e, p, q);
    } else {
      OperandRank(op, e, p);
      Dups2HereExactly(op, e, p, q, v);
      GoneOverKeeps(op, e, p, q);
      WithinSettlesAtExactly(op, e, p, v, NO);
      WithinSettlesAtExactly(op, e, p, v, YES);
      hide Eval, GoneOver, Put, At, OnChain, IsPath, SameChain;
    }
  }

  lemma HereStays(op: Junction, e: Expr, p: Path, q: Path)
    requires OnChain(op, e, p) && OnChain(op, e, q) && IsPath(e, p) && IsPath(e, q) && !IsOp(op, At(e, p)) && (p == q || !At(e, p).Bin?)
    ensures Dups2Here(op, e, p, q).0 == e
  {
  }

  // ---- expr_eliminate_dups ----

  ghost predicate Settled(a: Expr, b: Expr)
  {
    forall v :: Settles(Eval(a, v), Eval(b, v))
  }

  lemma PassesSettle(e: Expr)
    requires e.Bin?
    ensures var f := Dups1(e.op, e, [], []).0;
            && IsOp(e.op, f) && Settled(e, Dups2(e.op, f, [], []).0)
  {
    var f := Dups1(e.op, e, [], []).0;
    hide Dups1, Dups2;
    forall v ensures Settles(Eval(e, v), Eval(Dups2(e.op, f, [], []).0, v))
    {
      Dups1Exact(e.op, e, [], [], v);
      Dups2Settles(e.op, f, [], [], v);
    }
  }

  lemma RootStays(op: Junction, e: Expr, f: Expr)
    requires IsOp(op, e) && SameChain(op, e, f)
    ensures IsOp(op, f) && OnChain(op, f, []) && IsPath(f, [])
  {
  }

  lemma PassesShrink(e: Expr)
    requires e.Bin?
    ensures var (f, n) := Dups1(e.op, e, [], []);
            && IsOp(e.op, f)
            && var (g, k) := Dups2(e.op, f, [], []); Shrinks(e, g, n + k) && (n + k == 0 ==> e == f == g)
  {
    hide Dups1, Dups2, Leaves, HasConst, SameChain, RankIn, ChainSize;
    var (f, n) := Dups1(e.op, e, [], []);
    RootStays(e.op, e, f);
    var (g, k) := Dups2(e.op, f, [], []);
    Dups1Shrinks(e.op, e, [], []);
    Dups2Shrinks(e.op, f, [], []);
    ShrinksTrans(e, f, g, n, k);
  }

  lemma SettledByYn(a: Expr, b: Expr)
    requires Settled(a, b)
    ensures Settled(a, EliminateYn(b))
  {
    forall v ensures Settles(Eval(a, v), Eval(EliminateYn(b), v)) { EliminateYnPreserves(b, v); }
  }

  lemma SettledTrans(a: Expr, b: Expr, c: Expr)
    requires Settled(a, b) && Settled(b, c)
    ensures Settled(a, c)
  {
    forall v ensures Settles(Eval(a, v), Eval(c, v))
    {
      assert Settles(Eval(a, v), Eval(b, v)) && Settles(Eval(b, v), Eval(c, v));
    }
  }

  /** Neither pass finds anything more to do. */
  predicate Exhausted(e: Expr)
  {
    e.Bin? ==>
      var (f, n) := Dups1(e.op, e, [], []);
      n == 0 && IsOp(e.op, f) && Dups2(e.op, f, [], []).1 == 0
  }

  /** The result of expr_eliminate_dups: both passes, and constants folded after a round with a
      counted change, as long as there is one. */
  function Eliminated(e: Expr): (r: Expr)
    decreases Leaves(e)
  {
    if !e.Bin? then e
    else
      PassesShrink(e);
      var (f, n) := Dups1(e.op, e, [], []);
      var (g, k) := Dups2(e.op, f, [], []);
      if n + k == 0 then g
      else
        EliminateYnShrinks(g);
        Eliminated(EliminateYn(g))
  }

  /** A round that counts no change is the last. */
  lemma RoundStays(e: Expr)
    requires !e.Bin? || Dups1(e.op, e, [], []).1 + Dups2(e.op, Dups1(e.op, e, [], []).0, [], []).1 == 0
    ensures Eliminated(e) == e && Exhausted(e)
  {
    hide Dups1, Dups2, Leaves, HasConst, SameChain, RankIn, ChainSize, EliminateYn;
    if e.Bin? { PassesShrink(e); }
  }

  lemma {:induction false} EliminatedSettles(e: Expr)
    ensures Settled(e, Eliminated(e)) && Exhausted(Eliminated(e)) && Leaves(Eliminated(e)) <= Leaves(e)
    decreases Leaves(e)
  {
    if e.Bin? {
      PassesSettle(e);
      PassesShrink(e);
      var (f, n) := Dups1(e.op, e, [], []);
      var (g, k) := Dups2(e.op, f, [], []);
      if n + k == 0 {
        RoundStays(e);
      } else {
        EliminateYnShrinks(g);
        SettledByYn(e, g);
        EliminatedSettles(EliminateYn(g));
        SettledTrans(e, EliminateYn(g), Eliminated(e));
      }
    } else {
      RoundStays(e);
    }
  }

  /** expr_eliminate_dups ends, because every counted round loses a leaf; it leaves nothing more
      to eliminate; and under every valuation it keeps a value of yes or no. */
  method EliminateDups(e0: Expr) returns (e: Expr)
    ensures e == Eliminated(e0)
    ensures Settled(e0, e)
    ensures Exhausted(e) && Leaves(e) <= Leaves(e0)
  {
    hide Dups1, Dups2, EliminateYn, Leaves, Exhausted, Settled;
    e := e0;
    EliminatedSettles(e0);
    while true
      invariant Eliminated(e) == Eliminated(e0)
      decreases Leaves(e)
    {
      var count := 0;
      ghost var before := e;
      if e.Bin? {
        PassesShrink(e);
        var (f, n) := Dups1(e.op, e, [], []);
        var (g, k) := Dups2(e.op, f, [], []);
        e, count := g, n + k;
      }
      if count == 0 {
        RoundStays(before);
        return;
      }
      EliminateYnShrinks(e);
      e := EliminateYn(e);
    }
  }

  /** expr_eliminate_dups first makes a value of m definite by making it t: the second pass of some
      round does. */
  ghost predicate RunSettlesAt(e: Expr, v: Valuation, t: Tri)
    decreases Leaves(e)
  {
    e.Bin? && (
      PassesShrink(e);
      var (f, n) := Dups1(e.op, e, [], []);
      var (g, k) := Dups2(e.op, f, [], []);
      || SettlesAt(e.op, f, [], [], v, t)
      || (!SettlesAny(e.op, f, [], [], v) && n + k > 0 && (EliminateYnShrinks(g); RunSettlesAt(EliminateYn(g), v, t))))
  }

  lemma DefiniteStays(e: Expr, v: Valuation)
    requires Eval(e, v) != MOD
    ensures Eval(Eliminated(e), v) == Eval(e, v)
  {
    hide Eliminated, Exhausted;
    EliminatedSettles(e);
    assert Settles(Eval(e, v), Eval(Eliminated(e), v));
  }

  /** When expr_eliminate_dups keeps a value: always a definite one, and m exactly when no
      contradiction settles it. */
  lemma {:induction false} EliminatedExactly(e: Expr, v: Valuation, t: Tri)
    requires t != MOD
    ensures Eval(Eliminated(e), v) == t <==> if Eval(e, v) == MOD then RunSettlesAt(e, v, t) else Eval(e, v) == t
    decreases Leaves(e)
  {
    hide SettlesAt, SettlesAny, Dups1, Dups2, EliminateYn, Leaves, HasConst, SameChain, RankIn, ChainSize;
    if Eval(e, v) != MOD {
      DefiniteStays(e, v);
    } else if e.Bin? {
      hide Eval;
      PassesShrink(e);
      var (f, n) := Dups1(e.op, e, [], []);
      var (g, k) := Dups2(e.op, f, [], []);
      Dups1Exact(e.op, e, [], [], v);
      SettlesAtExactly(e.op, f, [], [], v, t);
      SettlesOrNot(e.op, f, [], [], v);
      if n + k > 0 {
        EliminateYnShrinks(g);
        EliminateYnPreserves(g, v);
        EliminatedExactly(EliminateYn(g), v, t);
      }
    }
  }

  /** No tristate symbol is m and m itself is not tested. */
  ghost predicate TwoValued(e: Expr, v: Valuation)
  {
    match e
    case Sym(s) => SymTri(s, v) != MOD
    case Not(a) => TwoValued(a, v)
    case Bin(_, l, r) => TwoValued(l, v) && TwoValued(r, v)
    case _ => true
  }

  lemma {:induction false} TwoValuedIsDefinite(e: Expr, v: Valuation)
    requires TwoValued(e, v)
    ensures Eval(e, v) != MOD
  {
    match e {
      case Not(a) => TwoValuedIsDefinite(a, v);
      case Bin(_, l, r) =>
        TwoValuedIsDefinite(l, v);
        TwoValuedIsDefinite(r, v);
      case _ =>
    }
  }

  /** On two-valued valuations whatever settles an expression equals it. */
  lemma SettledIsExact(a: Expr, b: Expr, v: Valuation)
    requires Settled(a, b) && TwoValued(a, v)
    ensures Eval(b, v) == Eval(a, v)
  {
    TwoValuedIsDefinite(a, v);
    assert Settles(Eval(a, v), Eval(b, v));
  }

  lemma DifferentKinds(a: Expr, b: Expr)
    requires a.Not? && b.Sym?
    ensures !Eq(a, b) && !Eq(b, a)
  {
  }

  lemma ExtractAll(a: Expr, b: Expr)
    requires a.Not? && b.Not? && Eq(a, a) && Eq(b, b)
    ensures var u := Sym(Yes);
            ExtractEq(AndOp, Nothing, Bin(AndOp, a, b), Bin(AndOp, a, b)) == (Just(Bin(AndOp, a, b)), Bin(AndOp, u, u), Bin(AndOp, u, u))
  {
    var y, u, j, k := Bin(AndOp, a, b), Sym(Yes), Just(a), Just(Bin(AndOp, a, b));
    DifferentKinds(a, u);
    DifferentKinds(b, u);
    hide Eq;
    assert ExtractEq(AndOp, Nothing, a, a) == (j, u, u);
    assert ExtractEq(AndOp, j, u, b) == (j, u, b);
    assert ExtractEq(AndOp, Nothing, a, y) == (j, u, Bin(AndOp, u, b));
    assert ExtractEq(AndOp, j, b, u) == (j, b, u);
    assert ExtractEq(AndOp, j, b, b) == (k, u, u);
    assert ExtractEq(AndOp, j, b, Bin(AndOp, u, b)) == (k, u, Bin(AndOp, u, u));
  }

  lemma NegatedOr(s: Symbol, t: Symbol)
    requires s.Config? && t.Config?
    ensures Transform(Not(Bin(OrOp, Sym(s), Sym(t)))) == Bin(AndOp, Not(Sym(s)), Not(Sym(t)))
  {
    var x := Bin(OrOp, Sym(s), Sym(t));
    assert Transform(x) == x;
    NormalIsFixed(NotBoth(OrOp, Sym(s), Sym(t)));
  }

  // ---- an expression of value m that becomes n ----

  /** Neither pass changes anything between p and q. */
  predicate Quiet1(op: Junction, e: Expr, p: Path, q: Path)
  {
    OnChain(op, e, p) && OnChain(op, e, q) && IsPath(e, p) && IsPath(e, q) && Dups1(op, e, p, q) == (e, 0)
  }

  predicate Quiet2(op: Junction, e: Expr, p: Path, q: Path)
  {
    OnChain(op, e, p) && OnChain(op, e, q) && IsPath(e, p) && IsPath(e, q) && Dups2(op, e, p, q) == (e, 0)
  }

  lemma Quiet1Left(op: Junction, e: Expr, p: Path, q: Path)
    requires OnChain(op, e, p) && IsPath(e, p) && IsOp(op, At(e, p)) && Quiet1(op, e, p + [L], q) && Quiet1(op, e, p + [R], q)
    ensures Quiet1(op, e, p, q)
  {
  }

  lemma Quiet1Right(op: Junction, e: Expr, p: Path, q: Path)
    requires Operand(op, e, p) && OnChain(op, e, q) && IsPath(e, q) && IsOp(op, At(e, q)) && Quiet1(op, e, p, q + [L]) && Quiet1(op, e, p, q + [R])
    ensures Quiet1(op, e, p, q)
  {
  }

  lemma Quiet1Leaf(op: Junction, e: Expr, p: Path, q: Path)
    requires Operand(op, e, p) && Operand(op, e, q) && !At(e, p).Bin? && (p == q || Join(op, At(e, p), At(e, q)).Nothing?)
    ensures Quiet1(op, e, p, q)
  {
  }

  lemma Quiet1Nested(op: Junction, e: Expr, p: Path, q: Path)
    requires Operand(op, e, p) && Operand(op, e, q) && At(e, p).Bin?
    requires p == q || (Quiet1(At(e, p).op, At(e, p), [], []) && Join(op, At(e, p), At(e, q)).Nothing?)
    ensures Quiet1(op, e, p, q)
  {
    hide Join;
    PutBack(e, p);
  }

  lemma Quiet2Left(op: Junction, e: Expr, p: Path, q: Path)
    requires OnChain(op, e, p) && IsPath(e, p) && IsOp(op, At(e, p)) && Quiet2(op, e, p + [L], q) && Quiet2(op, e, p + [R], q)
    ensures Quiet2(op, e, p, q)
  {
  }

  lemma Quiet2Leaf(op: Junction, e: Expr, p: Path, q: Path)
    requires Operand(op, e, p) && OnChain(op, e, q) && IsPath(e, q) && !At(e, p).Bin?
    ensures Quiet2(op, e, p, q)
    decreases ChainSize(op, At(e, q))
  {
    if IsOp(op, At(e, q)) {
      Extend(op, e, q, L);
      Extend(op, e, q, R);
      Quiet2Leaf(op, e, p, q + [L]);
      Quiet2Leaf(op, e, p, q + [R]);
    }
  }

  lemma TwoLeaves(s: Symbol, t: Symbol)
    requires s.Config? && t.Config? && s != t
    ensures var x := Bin(OrOp, Sym(s), Sym(t)); Quiet1(OrOp, x, [], []) && Quiet2(OrOp, x, [], [])
  {
    var x := Bin(OrOp, Sym(s), Sym(t));
    assert [] + [L] == [L] && [] + [R] == [R] && [L][1..] == [] && [R][1..] == [];
    hide Dups1, Dups2;
    forall p: Path, q: Path | p in {[L], [R]} && q in {[L], [R]} ensures Quiet1(OrOp, x, p, q) { Quiet1Leaf(OrOp, x, p, q); }
    Quiet1Right(OrOp, x, [L], []);
    Quiet1Right(OrOp, x, [R], []);
    Quiet1Left(OrOp, x, [], []);
    Quiet2Leaf(OrOp, x, [L], []);
    Quiet2Leaf(OrOp, x, [R], []);
    Quiet2Left(OrOp, x, [], []);
  }

  /** (A || B) && (!A && !B) */
  function Clash(s: Symbol, t: Symbol): Expr
  {
    Bin(AndOp, Bin(OrOp, Sym(s), Sym(t)), Bin(AndOp, Not(Sym(s)), Not(Sym(t))))
  }

  lemma ClashPaths(s: Symbol, t: Symbol)
    requires s.Config? && t.Config?
    ensures var e := Clash(s, t);
            && Operand(AndOp, e, [L]) && At(e, [L]) == Bin(OrOp, Sym(s), Sym(t))
            && OnChain(AndOp, e, [R]) && IsPath(e, [R]) && At(e, [R]) == Bin(AndOp, Not(Sym(s)), Not(Sym(t)))
            && Operand(AndOp, e, [R, L]) && At(e, [R, L]) == Not(Sym(s)) && Operand(AndOp, e, [R, R]) && At(e, [R, R]) == Not(Sym(t))
    ensures [] + [L] == [L] && [] + [R] == [R] && [R] + [L] == [R, L] && [R] + [R] == [R, R]
  {
    assert [L][1..] == [] && [R][1..] == [] && [R, L][1..] == [L] && [R, R][1..] == [R];
  }

  lemma NegationsApart(s: Symbol, t: Symbol)
    requires s.Config? && t.Config? && s != t
    ensures JoinAnd(Not(Sym(s)), Not(Sym(t))).Nothing?
  {
    assert Eq(Sym(s), Sym(t)) == (s == t);
    assert !Eq(Not(Sym(s)), Not(Sym(t)));
  }

  lemma ClashQuiet1(s: Symbol, t: Symbol)
    requires s.Config? && t.Config? && s != t
    ensures Quiet1(AndOp, Clash(s, t), [], [])
  {
    var e := Clash(s, t);
    ClashPaths(s, t);
    TwoLeaves(s, t);
    NegationsApart(s, t);
    NegationsApart(t, s);
    hide Dups1, Clash, Operand, OnChain, IsPath, At, Quiet1;
    var leaves: set<Path> := {[L], [R, L], [R, R]};
    forall p: Path, q: Path | p in leaves && q in leaves ensures Quiet1(AndOp, e, p, q)
    {
      if p == [L] { Quiet1Nested(AndOp, e, p, q); } else { Quiet1Leaf(AndOp, e, p, q); }
    }
    forall p: Path | p in leaves ensures Quiet1(AndOp, e, p, [])
    {
      Quiet1Right(AndOp, e, p, [R]);
      Quiet1Right(AndOp, e, p, []);
    }
    Quiet1Left(AndOp, e, [R], []);
    Quiet1Left(AndOp, e, [], []);
  }

  lemma UnitGoes(e: Expr)
    requires !e.Bin? && e != Sym(No)
    ensures EliminateYn(Bin(AndOp, Sym(Yes), e)) == e && EliminateYn(Bin(AndOp, e, Sym(Yes))) == e
  {
  }

  /** !(A || B) is !A && !B: against !A or !B alone something is left of it, against both nothing. */
  lemma ClashFound(s: Symbol, t: Symbol)
    requires s.Config? && t.Config? && s != t
    ensures var x, a, b := Bin(OrOp, Sym(s), Sym(t)), Not(Sym(s)), Not(Sym(t));
            !Contradicts(AndOp, x, a) && !Contradicts(AndOp, x, b) && Contradicts(AndOp, x, Bin(AndOp, a, b))
  {
    var a, b, u := Not(Sym(s)), Not(Sym(t)), Sym(Yes);
    NegatedOr(s, t);
    assert Eq(Sym(s), Sym(t)) == Eq(Sym(t), Sym(s)) == false;
    assert !Eq(a, b) && !Eq(b, a) && Eq(a, a) && Eq(b, b);
    ExtractAll(a, b);
    DifferentKinds(a, u);
    DifferentKinds(b, u);
    hide Transform, Eq;
    assert ExtractEq(AndOp, Nothing, Bin(AndOp, a, b), a) == (Just(a), Bin(AndOp, u, b), u);
    assert ExtractEq(AndOp, Nothing, Bin(AndOp, a, b), b) == (Just(b), Bin(AndOp, a, u), u);
    UnitGoes(a);
    UnitGoes(b);
    UnitGoes(u);
  }

  lemma Quiet2Same(op: Junction, e: Expr, p: Path)
    requires Operand(op, e, p)
    ensures Quiet2(op, e, p, p)
  {
  }

  lemma Quiet2Unfound(op: Junction, e: Expr, p: Path, q: Path)
    requires Operand(op, e, p) && Operand(op, e, q) && p != q && At(e, p).Bin?
    requires Quiet2(At(e, p).op, At(e, p), [], []) && !Contradicts(op, At(e, p), At(e, q))
    ensures Quiet2(op, e, p, q)
  {
    hide Contradicts;
    PutBack(e, p);
    var a := At(e, p);
    assert Dups2(a.op, a, [], []) == (a, 0) && Put(e, p, a) == e;
    assert Dups2Here(op, e, p, q) == (e, 0);
  }

  /** A contradiction found with a whole part of the chain, after nothing was found within it. */
  lemma Dups2Found(op: Junction, e: Expr, p: Path, q: Path)
    requires Operand(op, e, p) && OnChain(op, e, q) && IsPath(e, q) && IsOp(op, At(e, q)) && At(e, p).Bin? && p != q
    requires Quiet2(op, e, p, q + [L]) && Quiet2(op, e, p, q + [R]) && Quiet2(At(e, p).op, At(e, p), [], [])
    requires Contradicts(op, At(e, p), At(e, q))
    ensures Dups2(op, e, p, q) == (Put(e, p, Sym(Zero(op))), 1)
  {
    hide Contradicts;
    PutBack(e, p);
  }

  lemma ClashDups2(s: Symbol, t: Symbol)
    requires s.Config? && t.Config? && s != t
    ensures Dups2(AndOp, Clash(s, t), [], []) == (Bin(AndOp, Sym(No), Clash(s, t).right), 1)
  {
    var e, a, b := Clash(s, t), Not(Sym(s)), Not(Sym(t));
    var f := Bin(AndOp, Sym(No), Bin(AndOp, a, b));
    ClashPaths(s, t);
    TwoLeaves(s, t);
    ClashFound(s, t);
    Quiet2Same(AndOp, e, [L]);
    hide Contradicts;
    Quiet2Unfound(AndOp, e, [L], [R, L]);
    Quiet2Unfound(AndOp, e, [L], [R, R]);
    Dups2Found(AndOp, e, [L], [R]);
    assert Put(e, [L], Sym(No)) == f;
    ClashRest(f, a, b);
    assert Dups2(AndOp, e, [L], []) == (f, 1);
  }

  /** Nothing more happens once the first operand is a constant. */
  lemma ClashRest(f: Expr, a: Expr, b: Expr)
    requires f == Bin(AndOp, Sym(No), Bin(AndOp, a, b)) && a.Not? && b.Not?
    ensures Quiet2(AndOp, f, [R], []) && Quiet2(AndOp, f, [L], []) && Quiet2(AndOp, f, [L], [R])
  {
    assert [L][1..] == [] && [R][1..] == [] && [R, L][1..] == [L] && [R, R][1..] == [R] && [R] + [L] == [R, L] && [R] + [R] == [R, R];
    Quiet2Leaf(AndOp, f, [R, L], []);
    Quiet2Leaf(AndOp, f, [R, R], []);
    Quiet2Left(AndOp, f, [R], []);
    Quiet2Leaf(AndOp, f, [L], []);
    Quiet2Leaf(AndOp, f, [L], [R]);
  }

  lemma ClashIsMod(s: Symbol, t: Symbol, v: Valuation)
    requires SymTri(s, v) == MOD && SymTri(t, v) == MOD
    ensures Eval(Clash(s, t), v) == MOD
  {
    var x, y := Clash(s, t).left, Clash(s, t).right;
    assert Eval(x, v) == MOD && Eval(y, v) == MOD;
  }

  /** Neither the second pass nor the whole elimination is exact: with both symbols m,
      (A || B) && (!A && !B) is m and what becomes of it is n. */
  lemma SecondPassSettlesMod(s: Symbol, t: Symbol, v: Valuation)
    requires s.Config? && t.Config? && s != t && SymTri(s, v) == MOD && SymTri(t, v) == MOD
    ensures Eval(Clash(s, t), v) == MOD
    ensures Eval(Dups2(AndOp, Clash(s, t), [], []).0, v) == NO
    ensures Eliminated(Clash(s, t)) == Sym(No)
  {
    var e, y := Clash(s, t), Clash(s, t).right;
    ClashQuiet1(s, t);
    ClashDups2(s, t);
    ClashIsMod(s, t, v);
    hide Dups1, Dups2;
    assert EliminateYn(Bin(AndOp, Sym(No), y)) == Sym(No);
  }
}
