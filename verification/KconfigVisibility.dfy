/** How menu_finalize makes a prompt's condition from what was written and what the menus above
    depend on, and what that does to the prompt's visibility. */
module KconfigVisibility {
  import opened KconfigLogic
  import opened KconfigTransform
  import opened KconfigDups

  // ---- the normal form lasts ----

  lemma JoinNormal(op: Junction, a: Expr, b: Expr)
    requires Normal(a) && Normal(b) && Join(op, a, b).Just?
    ensures Normal(Join(op, a, b).value)
  {
    hide Eq;
  }

  lemma {:induction false} AtNormal(e: Expr, p: Path)
    requires IsPath(e, p) && Normal(e)
    ensures Normal(At(e, p))
    decreases |p|
  {
    if p != [] { AtNormal(if p[0] == L then e.left else e.right, p[1..]); }
  }

  lemma {:induction false} PutNormal(e: Expr, p: Path, x: Expr)
    requires IsPath(e, p) && Normal(e) && Normal(x)
    ensures Normal(Put(e, p, x))
    decreases |p|
  {
    if p != [] { PutNormal(if p[0] == L then e.left else e.right, p[1..], x); }
  }

  lemma {:induction false} EliminateYnNormal(e: Expr)
    requires Normal(e)
    ensures Normal(EliminateYn(e))
  {
    match e {
      case Bin(_, l, r) =>
        EliminateYnNormal(l);
        EliminateYnNormal(r);
      case _ =>
    }
  }

  lemma JoinAtNormal(op: Junction, e: Expr, p: Path, q: Path)
    requires Operand(op, e, p) && Operand(op, e, q) && p != q && Normal(e)
    ensures Normal(JoinAt(op, e, p, q).0)
  {
    hide Join, Normal;
    AtNormal(e, p);
    AtNormal(e, q);
    if Join(op, At(e, p), At(e, q)).Just? {
      var t, u := Join(op, At(e, p), At(e, q)).value, Sym(Unit(op));
      JoinNormal(op, At(e, p), At(e, q));
      JoinShape(op, At(e, p), At(e, q));
      SymNormal(Unit(op));
      PutOperand(op, e, p, u);
      PutElsewhere(op, e, p, q, u);
      PutNormal(e, p, u);
      PutNormal(Put(e, p, u), q, t);
    }
  }

  lemma SymNormal(s: Symbol)
    ensures Normal(Sym(s))
  {
  }

  lemma {:induction false} Dups1Normal(op: Junction, e: Expr, p: Path, q: Path)
    requires OnChain(op, e, p) && OnChain(op, e, q) && IsPath(e, p) && IsPath(e, q) && Normal(e)
    ensures Normal(Dups1(op, e, p, q).0)
    decreases RankIn(op, e), ChainSize(op, At(e, p)) + ChainSize(op, At(e, q))
  {
    hide JoinAt, Normal;
    if IsOp(op, At(e, p)) {
      Extend(op, e, p, L);
      Extend(op, e, p, R);
      var f := Dups1(op, e, p + [L], q).0;
      Follow(op, e, f, p + [R]);
      Follow(op, e, f, q);
      Dups1Normal(op, e, p + [L], q);
      Dups1Normal(op, f, p + [R], q);
    } else if IsOp(op, At(e, q)) {
      Extend(op, e, q, L);
      Extend(op, e, q, R);
      var f := Dups1(op, e, p, q + [L]).0;
      Follow(op, e, f, p);
      Follow(op, e, f, q + [R]);
      Dups1Normal(op, e, p, q + [L]);
      Dups1Normal(op, f, p, q + [R]);
    } else if p != q {
      if At(e, p).Bin? {
        OperandRank(op, e, p);
        var a := At(e, p);
        var x := Dups1(a.op, a, [], []).0;
        AtNormal(e, p);
        Dups1Normal(a.op, a, [], []);
        Nest(op, e, p, x);
        PutElsewhere(op, e, p, q, x);
        PutNormal(e, p, x);
        JoinAtNormal(op, Put(e, p, x), p, q);
      } else {
        JoinAtNormal(op, e, p, q);
      }
    }
  }

  lemma {:induction false} Dups2Normal(op: Junction, e: Expr, p: Path, q: Path)
    requires OnChain(op, e, p) && OnChain(op, e, q) && IsPath(e, p) && IsPath(e, q) && Normal(e)
    ensures Normal(Dups2(op, e, p, q).0)
    decreases RankIn(op, e), ChainSize(op, At(e, p)) + ChainSize(op, At(e, q)), 1
  {
    hide Dups2Here, Normal;
    if IsOp(op, At(e, p)) {
      Extend(op, e, p, L);
      Extend(op, e, p, R);
      var f := Dups2(op, e, p + [L], q).0;
      Follow(op, e, f, p + [R]);
      Follow(op, e, f, q);
      Dups2Normal(op, e, p + [L], q);
      Dups2Normal(op, f, p + [R], q);
    } else if IsOp(op, At(e, q)) {
      Extend(op, e, q, L);
      Extend(op, e, q, R);
      var f := Dups2(op, e, p, q + [L]).0;
      Follow(op, e, f, p);
      Follow(op, e, f, q + [R]);
      var g := Dups2(op, f, p, q + [R]).0;
      SameTrans(op, e, f, g);
      Follow(op, e, g, p);
      Follow(op, e, g, q);
      Dups2Normal(op, e, p, q + [L]);
      Dups2Normal(op, f, p, q + [R]);
      Dups2HereNormal(op, g, p, q);
    } else {
      Dups2HereNormal(op, e, p, q);
    }
  }

  lemma {:induction false} Dups2HereNormal(op: Junction, e: Expr, p: Path, q: Path)
    requires OnChain(op, e, p) && OnChain(op, e, q) && IsPath(e, p) && IsPath(e, q) && !IsOp(op, At(e, p)) && Normal(e)
    ensures Normal(Dups2Here(op, e, p, q).0)
    decreases RankIn(op, e), ChainSize(op, At(e, p)) + ChainSize(op, At(e, q)), 0
  {
    hide Contradicts, Normal;
    if p != q && At(e, p).Bin? {
      OperandRank(op, e, p);
      var a := At(e, p);
      var x := Dups2(a.op, a, [], []).0;
      AtNormal(e, p);
      Dups2Normal(a.op, a, [], []);
      Nest(op, e, p, x);
      var f := Put(e, p, x);
      PutNormal(e, p, x);
      Follow(op, e, f, q);
      SymNormal(Zero(op));
      if Contradicts(op, x, At(f, q)) { PutNormal(f, p, Sym(Zero(op))); }
    }
  }

  lemma {:induction false} EliminatedNormal(e: Expr)
    requires Normal(e)
    ensures Normal(Eliminated(e))
    decreases Leaves(e)
  {
    hide Normal, Dups1, Dups2, EliminateYn, Leaves, HasConst, SameChain, RankIn, ChainSize;
    if e.Bin? {
      PassesShrink(e);
      var (f, n) := Dups1(e.op, e, [], []);
      var (g, k) := Dups2(e.op, f, [], []);
      Dups1Normal(e.op, e, [], []);
      Dups2Normal(e.op, f, [], []);
      if n + k > 0 {
        EliminateYnShrinks(g);
        EliminateYnNormal(g);
        EliminatedNormal(EliminateYn(g));
      }
    }
  }

  lemma {:induction false} TransBoolNormal(e: Expr)
    requires Normal(e)
    ensures Normal(TransBool(e))
  {
    match e {
      case Bin(_, l, r) =>
        TransBoolNormal(l);
        TransBoolNormal(r);
      case _ =>
    }
  }

  // ---- menu_finalize ----

  /** expr_alloc_and: a missing condition is left out. */
  function AllocAnd(a: Maybe<Expr>, b: Maybe<Expr>): Maybe<Expr>
  {
    if a.Nothing? then b else if b.Nothing? then a else Just(Bin(AndOp, a.value, b.value))
  }

  function Transformed(e: Maybe<Expr>): Maybe<Expr> { if e.Just? then Just(Transform(e.value)) else e }

  /** What was written, under what holds above it: basedep of a menu entry. */
  function Under(above: Maybe<Expr>, written: Maybe<Expr>): Maybe<Expr>
  {
    var both := AllocAnd(above, Transformed(written));
    if both.Just? then Just(Eliminated(both.value)) else both
  }

  /** The condition of a property of an entry: FOO!=n becomes FOO unless the symbol is a tristate. */
  function PropertyDep(base: Maybe<Expr>, written: Maybe<Expr>, tristate: bool): Maybe<Expr>
  {
    var dep := Under(base, written);
    if dep.Just? && !tristate then Just(TransBool(dep.value)) else dep
  }

  predicate MaybeNormal(e: Maybe<Expr>) { e.Just? ==> Normal(e.value) }

  /** A missing condition counts as y. */
  function MaybeEval(e: Maybe<Expr>, v: Valuation): Tri { if e.Just? then Eval(e.value, v) else YES }

  /** All conditions in the menu tree are in normal form, from the root, which has none, downwards. */
  lemma NormalThroughout(above: Maybe<Expr>, written: Maybe<Expr>, tristate: bool)
    requires MaybeNormal(above)
    ensures MaybeNormal(Under(above, written)) && MaybeNormal(PropertyDep(above, written, tristate))
  {
    if written.Just? { TransformNormalises(written.value); }
    var both := AllocAnd(above, Transformed(written));
    if both.Just? {
      EliminatedNormal(both.value);
      TransBoolNormal(Eliminated(both.value));
    }
  }

  lemma BothValue(above: Maybe<Expr>, written: Maybe<Expr>, v: Valuation)
    ensures MaybeEval(AllocAnd(above, Transformed(written)), v) == Combine(AndOp, MaybeEval(above, v), MaybeEval(written, v))
  {
    if written.Just? { TransformPreserves(written.value, v); }
    hide Transform;
  }

  /** The elimination makes this condition's value of m definite by making it t. */
  ghost predicate SettledBetween(above: Maybe<Expr>, written: Maybe<Expr>, v: Valuation, t: Tri)
  {
    var both := AllocAnd(above, Transformed(written));
    both.Just? && RunSettlesAt(both.value, v, t)
  }

  /** The value of a finished condition: that of both conditions together, unless it was m and a
      contradiction between them settled it. */
  lemma UnderExactly(above: Maybe<Expr>, written: Maybe<Expr>, v: Valuation, t: Tri)
    requires t != MOD
    ensures var both := Combine(AndOp, MaybeEval(above, v), MaybeEval(written, v));
            MaybeEval(Under(above, written), v) == t <==> if both == MOD then SettledBetween(above, written, v, t) else both == t
  {
    BothValue(above, written, v);
    var both := AllocAnd(above, Transformed(written));
    hide Eliminated, RunSettlesAt, Combine;
    if both.Just? { EliminatedExactly(both.value, v, t); }
  }

  /** A rounded visibility is that of the written conditions exactly if they are not m together or
      no contradiction made them n: writing FOO for FOO!=n never shows. */
  lemma VisibilityUnchanged(base: Maybe<Expr>, written: Maybe<Expr>, tristate: bool, v: Valuation)
    requires MaybeNormal(base)
    ensures var both := Combine(AndOp, MaybeEval(base, v), MaybeEval(written, v));
            RoundUp(MaybeEval(PropertyDep(base, written, tristate), v)) == RoundUp(both) <==> !(both == MOD && SettledBetween(base, written, v, NO))
  {
    NormalThroughout(base, written, tristate);
    var dep := Under(base, written);
    if dep.Just? { TransBoolKeepsNo(dep.value, v); }
    UnderExactly(base, written, v, NO);
    UnderExactly(base, written, v, YES);
    hide Under, SettledBetween, Combine, Eval;
  }

  /** In particular it is unchanged where the conditions have a definite value together. */
  lemma DefiniteVisibilityUnchanged(base: Maybe<Expr>, written: Maybe<Expr>, tristate: bool, v: Valuation)
    requires MaybeNormal(base) && Combine(AndOp, MaybeEval(base, v), MaybeEval(written, v)) != MOD
    ensures RoundUp(MaybeEval(PropertyDep(base, written, tristate), v)) == Combine(AndOp, MaybeEval(base, v), MaybeEval(written, v))
  {
    VisibilityUnchanged(base, written, tristate, v);
    hide Combine, PropertyDep;
  }

  /** A boolean that depends on A || B, with a prompt if !A && !B: with both m the conditions are m
      together, which would show the prompt, but it is hidden. */
  lemma PromptHidden(s: Symbol, t: Symbol, v: Valuation)
    requires s.Config? && t.Config? && s != t && SymTri(s, v) == MOD && SymTri(t, v) == MOD
    ensures var base, written := Just(Bin(OrOp, Sym(s), Sym(t))), Just(Bin(AndOp, Not(Sym(s)), Not(Sym(t))));
            && MaybeNormal(base)
            && RoundUp(Combine(AndOp, MaybeEval(base, v), MaybeEval(written, v))) == YES
            && RoundUp(MaybeEval(PropertyDep(base, written, false), v)) == NO
  {
    var base, written := Just(Bin(OrOp, Sym(s), Sym(t))), Just(Bin(AndOp, Not(Sym(s)), Not(Sym(t))));
    NormalIsFixed(written.value);
    SecondPassSettlesMod(s, t, v);
    assert AllocAnd(base, Transformed(written)) == Just(Clash(s, t));
    assert Eval(Clash(s, t), v) == Combine(AndOp, MaybeEval(base, v), MaybeEval(written, v));
    assert PropertyDep(base, written, false) == Just(Sym(No));
  }
}
