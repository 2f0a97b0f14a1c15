/** What expr_eliminate_dups leaves: no chain of AND or OR, on whatever level, keeps two operands that
    one could stand for. */
module KconfigReduced {
  import opened KconfigLogic
  import opened KconfigOrder
  import opened KconfigTransform
  import opened KconfigDups

  // ---- pairs that are redundant ----

  predicate IsYmn(s: Symbol) { s in {Yes, Mod, No} }

  /** A symbol, a comparison, or one of them under any number of NOTs. */
  predicate Simple(e: Expr)
  {
    match e
    case Not(a) => Simple(a)
    case Bin(_, _, _) => false
    case _ => true
  }

  predicate IsTri(s: Symbol) { s.Config? && s.kind.Tristate? }

  predicate IsBool(s: Symbol) { s.Config? && s.kind.Boolean? }

  /** a || b is one comparison, or y. */
  predicate RedundantOr(a: Expr, b: Expr)
  {
    || (a.Equal? && b.Equal? && a.lsym == b.lsym && IsTri(a.lsym) && IsYmn(a.rsym) && IsYmn(b.rsym))
    || (a.Sym? && IsBool(a.sym) && b == Not(a))
  }

  /** a && b is one of the two, one comparison, or n. */
  predicate RedundantAnd(a: Expr, b: Expr)
  {
    || (a.Sym? && (IsTri(a.sym) || IsBool(a.sym)) && b in {Equal(a.sym, Yes), Unequal(a.sym, No), Unequal(a.sym, Mod)})
    || (a.Unequal? && b.Unequal? && a.lsym == b.lsym && IsTri(a.lsym) && IsYmn(a.rsym) && IsYmn(b.rsym))
    || (a.Equal? && b.Unequal? && a.lsym == b.lsym && IsTri(a.lsym) && IsConst(a.rsym) && IsConst(b.rsym))
  }

  /** The same literal twice, two that are known to make one, or the same tree but for the order and the
      grouping of its operands. */
  predicate Redundant(op: Junction, a: Expr, b: Expr)
  {
    || (a == b && Simple(a))
    || (if op.OrOp? then RedundantOr(a, b) || RedundantOr(b, a) else RedundantAnd(a, b) || RedundantAnd(b, a))
    || (NoYn(a) && NoYn(b) && FormOf(a) == FormOf(b))
  }

  lemma {:induction false} SimpleEq(a: Expr)
    requires Simple(a)
    ensures Eq(a, a)
  {
    if a.Not? { SimpleEq(a.arg); }
  }

  lemma RedundantIsJoined(op: Junction, a: Expr, b: Expr)
    requires Redundant(op, a, b)
    ensures Join(op, a, b).Just?
  {
    if a == b && Simple(a) { SimpleEq(a); }
    if NoYn(a) && NoYn(b) { EqExactly(a, b); }
    hide Eq, FormOf, NoYn, Simple;
    if !Eq(a, b) {
      if op.OrOp? { RedundantOrIsJoined(a, b); } else { RedundantAndIsJoined(a, b); }
    }
    hide RedundantOr, RedundantAnd;
  }

  lemma RedundantOrIsJoined(a: Expr, b: Expr)
    requires !Eq(a, b) && (RedundantOr(a, b) || RedundantOr(b, a))
    ensures JoinOr(a, b).Just?
  {
    assert a != b || !Simple(a) by { if a == b && Simple(a) { SimpleEq(a); } }
    hide Eq;
  }

  lemma RedundantAndIsJoined(a: Expr, b: Expr)
    requires !Eq(a, b) && (RedundantAnd(a, b) || RedundantAnd(b, a))
    ensures JoinAnd(a, b).Just?
  {
    assert a != b || !Simple(a) by { if a == b && Simple(a) { SimpleEq(a); } }
    hide Eq;
  }

  // ---- a pass that counts nothing ----

  /** Nothing to do at operands p and q, or inside p. */
  predicate QuietPair(op: Junction, e: Expr, p: Path, q: Path)
    requires Operand(op, e, p) && Operand(op, e, q)
  {
    && Join(op, At(e, p), At(e, q)).Nothing?
    && (At(e, p).Bin? ==> Dups1(At(e, p).op, At(e, p), [], []).1 == 0)
  }

  lemma Below(op: Junction, e: Expr, p: Path, x: Path)
    requires OnChain(op, e, p) && IsPath(e, p) && Operand(op, e, x) && p <= x
    ensures if IsOp(op, At(e, p)) then |p| < |x| && p + [x[|p|]] <= x else p == x
    decreases |p|
  {
    if p == [] {
      if x != [] { assert [x[0]] <= x; }
    } else {
      var c := if p[0] == L then e.left else e.right;
      assert p[0] == x[0] && p[1..] <= x[1..];
      Below(op, c, p[1..], x[1..]);
      if IsOp(op, At(e, p)) { assert p == [p[0]] + p[1..] && x == [x[0]] + x[1..]; }
    }
  }

  /** When the first pass counts nothing it has found nothing at any pair of operands. */
  lemma {:induction false} NothingFound(op: Junction, e: Expr, p: Path, q: Path, x: Path, y: Path)
    requires OnChain(op, e, p) && OnChain(op, e, q) && IsPath(e, p) && IsPath(e, q)
    requires Operand(op, e, x) && Operand(op, e, y) && p <= x && q <= y && x != y && Dups1(op, e, p, q).1 == 0
    ensures QuietPair(op, e, x, y)
    decreases ChainSize(op, At(e, p)) + ChainSize(op, At(e, q))
  {
    hide Join, Leaves, HasConst;
    Below(op, e, p, x);
    Below(op, e, q, y);
    if IsOp(op, At(e, p)) {
      Extend(op, e, p, L);
      Extend(op, e, p, R);
      Dups1Shrinks(op, e, p + [L], q);
      var (f, n) := Dups1(op, e, p + [L], q);
      Follow(op, e, f, p + [R]);
      Follow(op, e, f, q);
      assert n == 0 && f == e && Dups1(op, e, p + [R], q).1 == 0;
      if x[|p|] == L { NothingFound(op, e, p + [L], q, x, y); } else { NothingFound(op, e, p + [R], q, x, y); }
    } else if IsOp(op, At(e, q)) {
      Extend(op, e, q, L);
      Extend(op, e, q, R);
      Dups1Shrinks(op, e, p, q + [L]);
      var (f, n) := Dups1(op, e, p, q + [L]);
      Follow(op, e, f, p);
      Follow(op, e, f, q + [R]);
      assert n == 0 && f == e && Dups1(op, e, p, q + [R]).1 == 0;
      if y[|q|] == L { NothingFound(op, e, p, q + [L], x, y); } else { NothingFound(op, e, p, q + [R], x, y); }
    } else if At(e, p).Bin? {
      OperandRank(op, e, p);
      var a := At(e, p);
      Dups1Shrinks(a.op, a, [], []);
      var (z, n) := Dups1(a.op, a, [], []);
      Nest(op, e, p, z);
      PutElsewhere(op, e, p, q, z);
      PutBack(e, p);
      assert n == 0 ==> z == a;
    }
  }

  ghost predicate AllQuiet(op: Junction, e: Expr)
  {
    forall p, q :: Operand(op, e, p) && Operand(op, e, q) && p != q ==> QuietPair(op, e, p, q)
  }

  lemma QuietChain(op: Junction, e: Expr)
    requires IsOp(op, e) && Dups1(op, e, [], []).1 == 0
    ensures AllQuiet(op, e)
  {
    hide Dups1, QuietPair, IsPath, OnChain, At, Operand, SameChain, RankIn, IsOp;
    forall p, q | Operand(op, e, p) && Operand(op, e, q) && p != q ensures QuietPair(op, e, p, q)
    {
      NothingFoundAtAll(op, e, p, q);
    }
  }

  lemma NothingFoundAtAll(op: Junction, e: Expr, p: Path, q: Path)
    requires Dups1(op, e, [], []).1 == 0
    requires Operand(op, e, p) && Operand(op, e, q) && p != q
    ensures QuietPair(op, e, p, q)
  {
    hide Dups1, QuietPair, Operand, At, ChainSize;
    NothingFound(op, e, [], [], p, q);
  }

  lemma QuietAt(op: Junction, e: Expr, p: Path, q: Path)
    requires AllQuiet(op, e) && Operand(op, e, p) && Operand(op, e, q) && p != q
    ensures QuietPair(op, e, p, q)
  {
  }

  lemma DeeperOperand(op: Junction, e: Expr, d: Side, p: Path)
    requires IsOp(op, e) && Operand(op, if d == L then e.left else e.right, p)
    ensures Operand(op, e, [d] + p) && At(e, [d] + p) == At(if d == L then e.left else e.right, p)
  {
    assert ([d] + p)[1..] == p;
  }

  lemma QuietSide(op: Junction, e: Expr, d: Side)
    requires IsOp(op, e) && AllQuiet(op, e) && IsOp(op, if d == L then e.left else e.right)
    ensures AllQuiet(op, if d == L then e.left else e.right)
  {
    var c := if d == L then e.left else e.right;
    forall p, q | Operand(op, c, p) && Operand(op, c, q) && p != q ensures QuietPair(op, c, p, q)
    {
      DeeperOperand(op, e, d, p);
      DeeperOperand(op, e, d, q);
      assert ([d] + p)[1..] == p && ([d] + q)[1..] == q;
      assert QuietPair(op, e, [d] + p, [d] + q);
    }
  }

  lemma {:induction false} SomeOperand(op: Junction, e: Expr) returns (p: Path)
    ensures Operand(op, e, p)
  {
    p := [];
    if IsOp(op, e) {
      var q := SomeOperand(op, e.left);
      DeeperOperand(op, e, L, q);
      p := [L] + q;
    }
  }

  /** An operand that is a chain of the other kind has been gone over itself. */
  lemma QuietOperand(op: Junction, e: Expr, d: Side)
    requires IsOp(op, e) && AllQuiet(op, e)
    ensures var c := if d == L then e.left else e.right; c.Bin? && !IsOp(op, c) ==> AllQuiet(c.op, c)
  {
    var c := if d == L then e.left else e.right;
    if c.Bin? && !IsOp(op, c) {
      var o := if d == L then R else L;
      var q := SomeOperand(op, if o == L then e.left else e.right);
      DeeperOperand(op, e, d, []);
      DeeperOperand(op, e, o, q);
      assert [d] + [] == [d];
      assert QuietPair(op, e, [d], [o] + q);
      QuietChain(c.op, c);
    }
  }

  lemma PathBin(e: Expr, p: Path)
    requires IsPath(e, p) && At(e, p).Bin?
    ensures e.Bin?
  {
  }

  lemma {:induction false} NoneRedundantAt(op: Junction, e: Expr, r: Path, p: Path, q: Path)
    requires IsOp(op, e) && AllQuiet(op, e) && TwoOperands(e, r, p, q)
    ensures !Redundant(At(e, r).op, At(At(e, r), p), At(At(e, r), q))
    decreases |r|
  {
    hide AllQuiet, Redundant;
    if r == [] {
      QuietAt(op, e, p, q);
      if Redundant(op, At(e, p), At(e, q)) { RedundantIsJoined(op, At(e, p), At(e, q)); }
    } else {
      var c := if r[0] == L then e.left else e.right;
      QuietOperand(op, e, r[0]);
      PathBin(c, r[1..]);
      if IsOp(op, c) { QuietSide(op, e, r[0]); }
      NoneRedundantAt(c.op, c, r[1..], p, q);
    }
  }

  /** p and q are two operands of the chain at r. */
  predicate TwoOperands(e: Expr, r: Path, p: Path, q: Path)
  {
    && IsPath(e, r) && At(e, r).Bin?
    && Operand(At(e, r).op, At(e, r), p) && Operand(At(e, r).op, At(e, r), q) && p != q
  }

  /** expr_eliminate_dups leaves no redundant pair of operands in any chain of any depth. */
  lemma NoneRedundant(e: Expr, r: Path, p: Path, q: Path)
    requires TwoOperands(Eliminated(e), r, p, q)
    ensures var c := At(Eliminated(e), r); !Redundant(c.op, At(c, p), At(c, q))
  {
    var f := Eliminated(e);
    EliminatedSettles(e);
    assert f.Bin?;
    hide Eliminated, Redundant;
    QuietChain(f.op, f);
    NoneRedundantAt(f.op, f, r, p, q);
  }

  // ---- the shortest instance ----

  lemma TwoPaths(op: Junction, e: Expr)
    requires IsOp(op, e) && !IsOp(op, e.left) && !IsOp(op, e.right)
    ensures Operand(op, e, [L]) && Operand(op, e, [R]) && At(e, [L]) == e.left && At(e, [R]) == e.right && [L] != [R]
    ensures [] + [L] == [L] && [] + [R] == [R] && [L][1..] == [] && [R][1..] == []
  {
    assert [L][1..] == [] && [R][1..] == [] && [L][0] != [R][0];
  }

  /** One round of two operands that are alike leaves the unit and one of them. */
  lemma TwinPass(op: Junction, a: Expr)
    requires Simple(a)
    ensures var (f, n) := Dups1(op, Bin(op, a, a), [], []); f == Bin(op, Sym(Unit(op)), a) && n > 0
  {
    var e, f := Bin(op, a, a), Bin(op, Sym(Unit(op)), a);
    SimpleEq(a);
    TwoPaths(op, e);
    TwoPaths(op, f);
    TwinJoins(op, a);
    hide Join, RankIn, SameChain, Eq;
    assert Put(e, [L], Sym(Unit(op))) == f && Put(f, [R], a) == f;
    assert Dups1(op, e, [L], [L]) == (e, 0) && Dups1(op, e, [L], [R]) == JoinAt(op, e, [L], [R]) == (f, 1);
    assert Dups1(op, e, [L], []) == (f, 1);
    var n := JoinAt(op, f, [R], [L]).1;
    assert JoinAt(op, f, [R], [L]) == (f, n);
    assert Dups1(op, f, [R], [L]) == (f, n) && Dups1(op, f, [R], [R]) == (f, 0);
    assert Dups1(op, f, [R], []) == (f, n);
  }

  lemma TwinJoins(op: Junction, a: Expr)
    requires Simple(a)
    ensures Join(op, a, a) == Just(a)
    ensures Join(op, a, Sym(Unit(op))) == if a == Sym(Unit(op)) then Just(a) else Nothing
  {
    SimpleEq(a);
    assert Eq(a, Sym(Unit(op))) ==> a == Sym(Unit(op));
    hide Eq;
  }

  /** expr_eliminate_dups makes A of A && A and of A || A. */
  lemma TwinsMerge(op: Junction, a: Expr)
    requires Simple(a)
    ensures Eliminated(Bin(op, a, a)) == a
  {
    var e, f := Bin(op, a, a), Bin(op, Sym(Unit(op)), a);
    TwinPass(op, a);
    TwoPaths(op, f);
    Quiet2Leaf(op, f, [L], []);
    Quiet2Leaf(op, f, [R], []);
    Quiet2Left(op, f, [], []);
    hide Dups1, Dups2, RankIn, SameChain;
    assert EliminateYn(f) == a;
    assert Eliminated(a) == a;
  }
}
