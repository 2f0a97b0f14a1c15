/** What the second pass of expr_eliminate_dups looks for, and that it leaves nothing of it. */
module KconfigClashes {
  import opened KconfigLogic
  import opened KconfigOrder
  import opened KconfigTransform
  import opened KconfigDups
  import opened KconfigReduced

  /** expr_extract_eq leaves on either side what the other does not have. */
  lemma {:induction false} ExtractTakes(op: Junction, acc: Maybe<Expr>, a: Expr, b: Expr)
    requires Tidy(op, a) && Tidy(op, b)
    ensures var (acc2, x, y) := ExtractEq(op, acc, a, b);
            && Tidy(op, x) && Tidy(op, y) && Rest(op, x) == Rest(op, a) - Rest(op, b) && Rest(op, y) == Rest(op, b) - Rest(op, a)
            && (acc.Just? ==> acc2.Just?) && (acc2.Nothing? ==> x == a)
    decreases Size(a) + Size(b)
  {
    hide Eq, NoYn, FormOf, Parts;
    if IsChain(op, a) {
      var (c1, l, b1) := ExtractEq(op, acc, a.left, b);
      ExtractTakes(op, acc, a.left, b);
      ExtractTakes(op, c1, a.right, b1);
      TakenTwice(Rest(op, a.left), Rest(op, a.right), Rest(op, b));
    } else if IsChain(op, b) {
      var (c1, a1, l) := ExtractEq(op, acc, a, b.left);
      ExtractTakes(op, acc, a, b.left);
      ExtractTakes(op, c1, a1, b.right);
      TakenTwice(Rest(op, b.left), Rest(op, b.right), Rest(op, a));
    } else {
      ExtractTakesHere(op, acc, a, b);
    }
  }

  lemma ExtractTakesHere(op: Junction, acc: Maybe<Expr>, a: Expr, b: Expr)
    requires Tidy(op, a) && Tidy(op, b) && !IsChain(op, a) && !IsChain(op, b)
    ensures var (acc2, x, y) := ExtractEq(op, acc, a, b);
            && Tidy(op, x) && Tidy(op, y) && Rest(op, x) == Rest(op, a) - Rest(op, b) && Rest(op, y) == Rest(op, b) - Rest(op, a)
            && (acc.Just? ==> acc2.Just?) && (acc2.Nothing? ==> x == a)
  {
    var unit := Sym(Unit(op));
    UnitRest(op);
    if a == unit || b == unit {
      hide NoYn, FirstPhase, SecondPhase, EliminateYn;
      assert Eq(a, b) ==> a == b;
    } else {
      EqExactly(a, b);
      hide *;
      ExtractOne(op, acc, a, b);
      OneRest(op, a);
      OneRest(op, b);
      Singles(FormOf(a), FormOf(b));
      Singles(FormOf(b), FormOf(a));
    }
  }

  lemma ExtractOne(op: Junction, acc: Maybe<Expr>, a: Expr, b: Expr)
    requires !IsChain(op, a) && !IsChain(op, b)
    ensures var unit, (acc2, x, y) := Sym(Unit(op)), ExtractEq(op, acc, a, b);
            && (x, y) == (if Eq(a, b) then (unit, unit) else (a, b))
            && (acc.Just? ==> acc2.Just?) && (acc2.Nothing? ==> x == a)
  {
    hide Eq;
  }

  lemma {:induction false} SomeParts(op: Junction, e: Expr)
    ensures Parts(op, e) != multiset{}
  {
    if IsChain(op, e) {
      SomeParts(op, e.left);
      assert forall f :: f in Parts(op, e.left) ==> f in Parts(op, e);
    }
  }

  lemma AllTaken(s: multiset<Form>, t: multiset<Form>)
    ensures s - t == multiset{} <==> s <= t
  {
    if s - t == multiset{} {
      forall f ensures s[f] <= t[f] { assert f !in s - t; }
    }
  }

  /** The second pass takes b to be at odds with x exactly if all operands of x's negation are among b's. */
  lemma ContradictsExactly(op: Junction, x: Expr, b: Expr)
    requires NoYn(Transform(Not(x))) && NoYn(b)
    ensures Contradicts(op, x, b) <==> Parts(op, Transform(Not(x))) <= Parts(op, b)
  {
    var n := Transform(Not(x));
    var (acc, t, _) := ExtractEq(op, Nothing, n, b);
    RestIsParts(op, n);
    RestIsParts(op, b);
    ExtractTakes(op, Nothing, n, b);
    FoldsTo(op, t);
    SomeParts(op, n);
    AllTaken(Parts(op, n), Parts(op, b));
    NotUnit(op, n);
    hide Transform, ExtractEq, Parts, Rest, NoYn, EliminateYn, Tidy;
  }

  lemma NotUnit(op: Junction, n: Expr)
    requires NoYn(n)
    ensures n != Sym(Unit(op)) && !IsYn(n)
  {
  }

  // ---- a pass that counts nothing ----

  /** The pass finds no contradiction of operand p with part q of the chain, and has nothing to do inside p. */
  predicate NoClash(op: Junction, e: Expr, p: Path, q: Path)
    requires Operand(op, e, p) && OnChain(op, e, q) && IsPath(e, q)
  {
    At(e, p).Bin? ==> !Contradicts(op, At(e, p), At(e, q)) && Dups2(At(e, p).op, At(e, p), [], []).1 == 0
  }

  lemma PartBelow(op: Junction, e: Expr, q: Path, y: Path)
    requires OnChain(op, e, q) && IsPath(e, q) && OnChain(op, e, y) && IsPath(e, y) && q <= y
    ensures q == y || (IsOp(op, At(e, q)) && |q| < |y| && q + [y[|q|]] <= y)
    decreases |q|
  {
    if q == [] {
      if y != [] { assert [y[0]] <= y; }
    } else {
      assert q[0] == y[0] && q[1..] <= y[1..];
      PartBelow(op, if q[0] == L then e.left else e.right, q[1..], y[1..]);
      hide OnChain, IsPath;
      LongerPath(q, y);
    }
  }

  lemma LongerPath(q: Path, y: Path)
    requires q != [] && q <= y
    ensures q[1..] == y[1..] ==> q == y
    ensures |q[1..]| < |y[1..]| && q[1..] + [y[1..][|q[1..]|]] <= y[1..] ==> |q| < |y| && q + [y[|q|]] <= y
  {
    assert q == [q[0]] + q[1..] && y == [y[0]] + y[1..];
  }

  /** When the second pass counts nothing it has found nothing at any operand and part. */
  lemma {:induction false} NothingClashes(op: Junction, e: Expr, p: Path, q: Path, x: Path, y: Path)
    requires OnChain(op, e, p) && IsPath(e, p) && Operand(op, e, x) && p <= x
    requires OnChain(op, e, q) && IsPath(e, q) && OnChain(op, e, y) && IsPath(e, y) && q <= y
    requires x != y && Dups2(op, e, p, q).1 == 0
    ensures NoClash(op, e, x, y)
    decreases ChainSize(op, At(e, p)) + ChainSize(op, At(e, q))
  {
    hide Contradicts, Leaves, HasConst, Dups2Here;
    Below(op, e, p, x);
    PartBelow(op, e, q, y);
    if IsOp(op, At(e, p)) {
      Extend(op, e, p, L);
      Extend(op, e, p, R);
      Dups2Shrinks(op, e, p + [L], q);
      var (f, n) := Dups2(op, e, p + [L], q);
      Follow(op, e, f, p + [R]);
      Follow(op, e, f, q);
      assert n == 0 && f == e && Dups2(op, e, p + [R], q).1 == 0;
      if x[|p|] == L { NothingClashes(op, e, p + [L], q, x, y); } else { NothingClashes(op, e, p + [R], q, x, y); }
    } else if IsOp(op, At(e, q)) {
      Extend(op, e, q, L);
      Extend(op, e, q, R);
      Dups2Shrinks(op, e, p, q + [L]);
      var (f, n) := Dups2(op, e, p, q + [L]);
      Follow(op, e, f, p);
      Follow(op, e, f, q + [R]);
      assert n == 0 && f == e;
      Dups2Shrinks(op, e, p, q + [R]);
      var (g, k) := Dups2(op, e, p, q + [R]);
      Follow(op, e, g, p);
      Follow(op, e, g, q);
      assert k == 0 && g == e && Dups2Here(op, e, p, q).1 == 0;
      if q == y { NoClashHere(op, e, p, q); }
      else if y[|q|] == L { NothingClashes(op, e, p, q + [L], x, y); }
      else { NothingClashes(op, e, p, q + [R], x, y); }
    } else {
      NoClashHere(op, e, p, q);
    }
  }

  lemma NoClashHere(op: Junction, e: Expr, p: Path, q: Path)
    requires Operand(op, e, p) && OnChain(op, e, q) && IsPath(e, q) && p != q && Dups2Here(op, e, p, q).1 == 0
    ensures NoClash(op, e, p, q)
  {
    hide Contradicts, Leaves, HasConst;
    if At(e, p).Bin? {
      OperandRank(op, e, p);
      var a := At(e, p);
      Dups2Shrinks(a.op, a, [], []);
      var (z, n) := Dups2(a.op, a, [], []);
      Nest(op, e, p, z);
      PutBack(e, p);
      Follow(op, e, Put(e, p, z), q);
      assert n == 0 && z == a;
    }
  }

  ghost predicate AllAgree(op: Junction, e: Expr)
  {
    forall p, q :: Operand(op, e, p) && OnChain(op, e, q) && IsPath(e, q) && p != q ==> NoClash(op, e, p, q)
  }

  lemma AgreeChain(op: Junction, e: Expr)
    requires IsOp(op, e) && Dups2(op, e, [], []).1 == 0
    ensures AllAgree(op, e)
  {
    hide Dups2, NoClash, IsPath, OnChain, At, Operand, SameChain, RankIn, IsOp;
    forall p, q | Operand(op, e, p) && OnChain(op, e, q) && IsPath(e, q) && p != q ensures NoClash(op, e, p, q)
    {
      NothingClashesAtAll(op, e, p, q);
    }
  }

  lemma NothingClashesAtAll(op: Junction, e: Expr, p: Path, q: Path)
    requires Dups2(op, e, [], []).1 == 0
    requires Operand(op, e, p) && OnChain(op, e, q) && IsPath(e, q) && p != q
    ensures NoClash(op, e, p, q)
  {
    hide Dups2, NoClash, Operand, At, ChainSize;
    NothingClashes(op, e, [], [], p, q);
  }

  lemma AgreesAt(op: Junction, e: Expr, p: Path, q: Path)
    requires AllAgree(op, e) && Operand(op, e, p) && OnChain(op, e, q) && IsPath(e, q) && p != q
    ensures NoClash(op, e, p, q)
  {
  }

  lemma DeeperPart(op: Junction, e: Expr, d: Side, p: Path)
    requires IsOp(op, e) && OnChain(op, if d == L then e.left else e.right, p) && IsPath(if d == L then e.left else e.right, p)
    ensures OnChain(op, e, [d] + p) && IsPath(e, [d] + p) && At(e, [d] + p) == At(if d == L then e.left else e.right, p)
  {
    assert ([d] + p)[1..] == p;
  }

  lemma AgreeSide(op: Junction, e: Expr, d: Side)
    requires IsOp(op, e) && AllAgree(op, e)
    ensures var c := if d == L then e.left else e.right;
            c.Bin? ==> AllAgree(c.op, c)
  {
    var c := if d == L then e.left else e.right;
    if IsOp(op, c) {
      hide Contradicts, Dups2;
      forall p, q | Operand(op, c, p) && OnChain(op, c, q) && IsPath(c, q) && p != q ensures NoClash(op, c, p, q)
      {
        DeeperPart(op, e, d, p);
        DeeperPart(op, e, d, q);
        assert ([d] + p)[1..] == p && ([d] + q)[1..] == q;
        AgreesAt(op, e, [d] + p, [d] + q);
      }
    } else if c.Bin? {
      DeeperPart(op, e, d, []);
      assert [d] + [] == [d];
      AgreesAt(op, e, [d], []);
      AgreeChain(c.op, c);
    }
  }

  /** Not all operands of the negation of x are among those of b. */
  predicate Agrees(op: Junction, x: Expr, b: Expr)
  {
    x.Bin? && NoYn(Transform(Not(x))) && NoYn(b) ==> !(Parts(op, Transform(Not(x))) <= Parts(op, b))
  }

  /** p is an operand of the chain at r and q another part of that chain, or all of it. */
  predicate OperandAndPart(e: Expr, r: Path, p: Path, q: Path)
  {
    && IsPath(e, r) && At(e, r).Bin?
    && Operand(At(e, r).op, At(e, r), p) && OnChain(At(e, r).op, At(e, r), q) && IsPath(At(e, r), q) && p != q
  }

  lemma {:induction false} NoneContradictedAt(op: Junction, e: Expr, r: Path, p: Path, q: Path)
    requires IsOp(op, e) && AllAgree(op, e) && OperandAndPart(e, r, p, q)
    ensures Agrees(At(e, r).op, At(At(e, r), p), At(At(e, r), q))
    decreases |r|
  {
    hide AllAgree, Agrees;
    if r == [] {
      AgreesAt(op, e, p, q);
      ClashOrNot(op, At(e, p), At(e, q));
    } else {
      var c := if r[0] == L then e.left else e.right;
      PathBin(c, r[1..]);
      AgreeSide(op, e, r[0]);
      NoneContradictedAt(c.op, c, r[1..], p, q);
    }
  }

  lemma ClashOrNot(op: Junction, x: Expr, b: Expr)
    requires x.Bin? ==> !Contradicts(op, x, b)
    ensures Agrees(op, x, b)
  {
    hide Contradicts, NoYn, Transform, Parts;
    if x.Bin? && NoYn(Transform(Not(x))) && NoYn(b) { ContradictsExactly(op, x, b); }
  }

  /** expr_eliminate_dups leaves no operand whose negation's operands are all in another part of the
      chain, or in the whole of it: no A || B beside !A and !B in an AND. */
  lemma NoneContradicted(e: Expr, r: Path, p: Path, q: Path)
    requires OperandAndPart(Eliminated(e), r, p, q)
    ensures var c := At(Eliminated(e), r); Agrees(c.op, At(c, p), At(c, q))
  {
    var f := Eliminated(e);
    EliminatedSettles(e);
    assert f.Bin?;
    Dups1Shrinks(f.op, f, [], []);
    hide Eliminated, Agrees;
    AgreeChain(f.op, f);
    NoneContradictedAt(f.op, f, r, p, q);
  }
}
