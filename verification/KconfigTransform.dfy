/** expr_transform, expr_trans_bool and the pairwise simplifications of expr_join_or and
    expr_join_and: what each does to an expression's value. */
module KconfigTransform {
  import opened KconfigLogic

  // ---- expr_transform ----

  function Weight(e: Expr): (n: nat)
    ensures n > 0
  {
    match e
    case Sym(_) => 1
    case Not(a) => 2 * Weight(a)
    case Bin(_, l, r) => 1 + Weight(l) + Weight(r)
    case _ => 2
  }

  /** A comparison of a boolean symbol with y, m or n is a plain test of the symbol. */
  function TransformComparison(e: Expr): (r: Expr)
    requires e.Equal? || e.Unequal?
    ensures Weight(r) <= 2
  {
    if !(e.lsym.Config? && e.lsym.kind.Boolean?) then e
    else if e.rsym == No then (if e.Equal? then Not(Sym(e.lsym)) else Sym(e.lsym))
    else if e.rsym == Mod then (if e.Equal? then Sym(No) else Sym(Yes))
    else if e.rsym == Yes then (if e.Equal? then Sym(e.lsym) else Not(Sym(e.lsym)))
    else e
  }

  /** !(a || b) is !a && !b, and dually. */
  function NotBoth(op: Junction, l: Expr, r: Expr): (e: Expr)
    ensures Weight(e) == 1 + 2 * Weight(l) + 2 * Weight(r)
  {
    Bin(if op.OrOp? then AndOp else OrOp, Not(l), Not(r))
  }

  /** expr_transform: pushes NOT down to the symbols. */
  function Transform(e: Expr): (r: Expr)
    ensures Weight(r) <= Weight(e)
    decreases Weight(e)
  {
    match e
    case Sym(_) => e
    case Equal(_, _) => TransformComparison(e)
    case Unequal(_, _) => TransformComparison(e)
    case Bin(op, l, r) => Bin(op, Transform(l), Transform(r))
    case Not(x) =>
      var a := Transform(x);
      match a
      case Not(b) => Transform(b)
      case Equal(s, t) => Unequal(s, t)
      case Unequal(s, t) => Equal(s, t)
      case Bin(op, l, r) => Transform(NotBoth(op, l, r))
      case Sym(s) => if s == Yes then Sym(No) else if s == Mod then Sym(Mod) else if s == No then Sym(Yes) else Not(a)
  }

  lemma DeMorgan(op: Junction, a: Tri, b: Tri)
    ensures 2 - Combine(op, a, b) == Combine(if op.OrOp? then AndOp else OrOp, 2 - a, 2 - b)
  {
  }

  lemma ComparisonPreserves(e: Expr, v: Valuation)
    requires e.Equal? || e.Unequal?
    ensures Eval(TransformComparison(e), v) == Eval(e, v)
  {
  }

  /** expr_transform never changes a value. */
  lemma {:induction false} TransformPreserves(e: Expr, v: Valuation)
    ensures Eval(Transform(e), v) == Eval(e, v)
    decreases Weight(e)
  {
    hide TransformComparison, Combine;
    match e {
      case Sym(_) =>
      case Equal(_, _) => ComparisonPreserves(e, v);
      case Unequal(_, _) => ComparisonPreserves(e, v);
      case Bin(op, l, r) =>
        TransformPreserves(l, v);
        TransformPreserves(r, v);
      case Not(x) =>
        TransformPreserves(x, v);
        match Transform(x) {
          case Not(b) => TransformPreserves(b, v);
          case Bin(op, l, r) =>
            TransformPreserves(NotBoth(op, l, r), v);
            DeMorgan(op, Eval(l, v), Eval(r, v));
          case _ =>
        }
    }
  }

  predicate BooleanTest(s: Symbol, t: Symbol)
  {
    s.Config? && s.kind.Boolean? && (t == Yes || t == Mod || t == No)
  }

  /** NOT stands only over non-constant symbols and no boolean is compared with y, m or n. */
  predicate Normal(e: Expr)
  {
    match e
    case Sym(_) => true
    case Equal(s, t) => !BooleanTest(s, t)
    case Unequal(s, t) => !BooleanTest(s, t)
    case Bin(_, l, r) => Normal(l) && Normal(r)
    case Not(a) => a.Sym? && a.sym != Yes && a.sym != Mod && a.sym != No
  }

  lemma {:induction false} NormalIsFixed(e: Expr)
    requires Normal(e)
    ensures Transform(e) == e
    decreases Weight(e)
  {
    match e {
      case Bin(_, l, r) =>
        NormalIsFixed(l);
        NormalIsFixed(r);
      case _ =>
    }
  }

  /** expr_transform reaches the normal form, and leaves normal trees alone. */
  lemma {:induction false} TransformNormalises(e: Expr)
    ensures Normal(Transform(e))
    decreases Weight(e)
  {
    match e {
      case Bin(op, l, r) =>
        TransformNormalises(l);
        TransformNormalises(r);
      case Not(x) =>
        TransformNormalises(x);
        match Transform(x) {
          case Not(b) => TransformNormalises(b);
          case Bin(op, l, r) => TransformNormalises(NotBoth(op, l, r));
          case _ =>
        }
      case _ =>
    }
  }

  // ---- expr_trans_bool ----

  /** FOO!=n becomes FOO, for tristates. */
  function TransBool(e: Expr): Expr
  {
    match e
    case Bin(op, l, r) => Bin(op, TransBool(l), TransBool(r))
    case Not(a) => Not(TransBool(a))
    case Unequal(s, t) => if s.Config? && s.kind.Tristate? && t == No then Sym(s) else e
    case _ => e
  }

  /** A tristate is compared with n by != somewhere in e. */
  predicate SaysNotNo(e: Expr)
  {
    match e
    case Bin(_, l, r) => SaysNotNo(l) || SaysNotNo(r)
    case Not(a) => SaysNotNo(a)
    case Unequal(s, t) => s.Config? && s.kind.Tristate? && t == No
    case _ => false
  }

  /** expr_trans_bool leaves none of these, and leaves trees without them alone. */
  lemma {:induction false} TransBoolComplete(e: Expr)
    ensures !SaysNotNo(TransBool(e)) && (!SaysNotNo(e) ==> TransBool(e) == e)
  {
    match e {
      case Bin(_, l, r) =>
        TransBoolComplete(l);
        TransBoolComplete(r);
      case Not(a) => TransBoolComplete(a);
      case _ =>
    }
  }

  /** On the normal form, expr_trans_bool keeps whether the value is no. */
  lemma {:induction false} TransBoolKeepsNo(e: Expr, v: Valuation)
    requires Normal(e)
    ensures Eval(TransBool(e), v) == NO <==> Eval(e, v) == NO
  {
    match e {
      case Bin(op, l, r) =>
        TransBoolKeepsNo(l, v);
        TransBoolKeepsNo(r, v);
      case _ =>
    }
  }

  /** Without the normal form it is not true: under NOT the rewrite can turn no into m. */
  lemma TransBoolNeedsNormalForm()
    ensures exists e, v :: Eval(TransBool(e), v) != NO && Eval(e, v) == NO
  {
    var s: Symbol := Config(0, Tristate);
    var e := Not(Unequal(s, No));
    var v := Valuation(_ => false, _ => MOD, _ => "");
    assert SymTri(s, v) == MOD && SymText(s, v) == "m" && SymText(No, v) == "n";
    assert Eval(Unequal(s, No), v) == YES;
    assert Eval(e, v) == NO && TransBool(e) == Not(Sym(s)) && Eval(TransBool(e), v) == MOD;
  }

  // ---- expr_join_or and expr_join_and ----

  predicate Literal(e: Expr) { !e.Bin? }

  /** Literals expr_join_or and expr_join_and look at; only the first may be NOT over a comparison. */
  predicate FirstLiteral(e: Expr)
  {
    Literal(e) && (e.Not? ==> !e.arg.Not? && !e.arg.Bin?)
  }

  predicate SecondLiteral(e: Expr)
  {
    Literal(e) && (e.Not? ==> e.arg.Sym?)
  }

  /** The symbol a literal is about: the left one of a comparison, the one under NOT. */
  function SubjectOf(e: Expr): Symbol
    requires FirstLiteral(e)
  {
    match e
    case Sym(s) => s
    case Equal(s, _) => s
    case Unequal(s, _) => s
    case Not(a) => if a.Sym? then a.sym else a.lsym
  }

  predicate Compares(a: Expr, b: Expr, s: Symbol, t: Symbol)
    requires (a.Equal? || a.Unequal?) && (b.Equal? || b.Unequal?)
  {
    (a.rsym == s && b.rsym == t) || (a.rsym == t && b.rsym == s)
  }

  /** expr_join_or */
  function JoinOr(a: Expr, b: Expr): Maybe<Expr>
  {
    if Eq(a, b) then Just(a)
    else if !FirstLiteral(a) || !SecondLiteral(b) then Nothing
    else
      var s := SubjectOf(a);
      if s != SubjectOf(b) || !s.Config? || s.kind.Other? then Nothing
      else if s.kind.Tristate? && a.Equal? && b.Equal? && Compares(a, b, Yes, Mod) then Just(Unequal(s, No))
      else if s.kind.Tristate? && a.Equal? && b.Equal? && Compares(a, b, Yes, No) then Just(Unequal(s, Mod))
      else if s.kind.Tristate? && a.Equal? && b.Equal? && Compares(a, b, Mod, No) then Just(Unequal(s, Yes))
      else if s.kind.Boolean? && ((a.Not? && a.arg.Sym? && b.Sym?) || (b.Not? && b.arg.Sym? && a.Sym?)) then Just(Sym(Yes))
      else Nothing
  }

  /** One is the symbol itself, the other compares it with t. */
  predicate SymbolAnd(a: Expr, b: Expr, equal: bool, t: Symbol)
  {
    || (a.Sym? && (if equal then b.Equal? else b.Unequal?) && b.rsym == t)
    || (b.Sym? && (if equal then a.Equal? else a.Unequal?) && a.rsym == t)
  }

  function EqualAndUnequal(s: Symbol, e: Symbol, u: Symbol): Maybe<Expr>
  {
    if e != u then Just(Equal(s, e)) else Just(Sym(No))
  }

  function JoinTristateAnd(s: Symbol, a: Expr, b: Expr): Maybe<Expr>
  {
    if a.Equal? && b.Unequal? && IsConst(a.rsym) && IsConst(b.rsym) then EqualAndUnequal(s, a.rsym, b.rsym)
    else if a.Unequal? && b.Equal? && IsConst(a.rsym) && IsConst(b.rsym) then EqualAndUnequal(s, b.rsym, a.rsym)
    else if a.Unequal? && b.Unequal? && Compares(a, b, Yes, No) then Just(Equal(s, Mod))
    else if a.Unequal? && b.Unequal? && Compares(a, b, Yes, Mod) then Just(Equal(s, No))
    else if a.Unequal? && b.Unequal? && Compares(a, b, Mod, No) then Just(Equal(s, Yes))
    else Nothing
  }

  /** expr_join_and */
  function JoinAnd(a: Expr, b: Expr): Maybe<Expr>
  {
    if Eq(a, b) then Just(a)
    else if !FirstLiteral(a) || !SecondLiteral(b) then Nothing
    else
      var s := SubjectOf(a);
      if s != SubjectOf(b) || !s.Config? || s.kind.Other? then Nothing
      else if SymbolAnd(a, b, true, Yes) then Just(Equal(s, Yes))
      else if SymbolAnd(a, b, false, No) then Just(Sym(s))
      else if SymbolAnd(a, b, false, Mod) then Just(Equal(s, Yes))
      else if s.kind.Tristate? then JoinTristateAnd(s, a, b)
      else Nothing
  }

  function Join(op: Junction, a: Expr, b: Expr): Maybe<Expr>
  {
    if op.OrOp? then JoinOr(a, b) else JoinAnd(a, b)
  }

  lemma TextsApart(s: Symbol, v: Valuation)
    requires s.Config? && !s.kind.Other?
    ensures SymText(s, v) == "y" <==> SymTri(s, v) == YES
    ensures SymText(s, v) == "m" <==> SymTri(s, v) == MOD
    ensures SymText(s, v) == "n" <==> SymTri(s, v) == NO
  {
    assert "y"[0] != "m"[0] && "y"[0] != "n"[0] && "m"[0] != "n"[0];
  }

  lemma ConstsApart(s: Symbol, t: Symbol, v: Valuation)
    requires IsConst(s) && IsConst(t) && s != t
    ensures SymText(s, v) != SymText(t, v)
  {
    assert "y"[0] != "m"[0] && "y"[0] != "n"[0] && "m"[0] != "n"[0];
  }

  lemma JoinOrExact(a: Expr, b: Expr, v: Valuation)
    requires JoinOr(a, b).Just?
    ensures Eval(JoinOr(a, b).value, v) == Combine(OrOp, Eval(a, v), Eval(b, v))
  {
    hide Eq;
    if Eq(a, b) {
      EqSound(a, b, v);
    } else {
      TextsApart(SubjectOf(a), v);
    }
  }

  lemma EqualUnequalExact(s: Symbol, e: Symbol, u: Symbol, v: Valuation)
    requires IsConst(e) && IsConst(u)
    ensures Eval(EqualAndUnequal(s, e, u).value, v) == Combine(AndOp, Eval(Equal(s, e), v), Eval(Unequal(s, u), v))
  {
    if e != u { ConstsApart(e, u, v); }
  }

  lemma JoinTristateAndExact(s: Symbol, a: Expr, b: Expr, v: Valuation)
    requires s.Config? && s.kind.Tristate? && JoinTristateAnd(s, a, b).Just?
    requires (a.Equal? || a.Unequal? ==> a.lsym == s) && (b.Equal? || b.Unequal? ==> b.lsym == s)
    ensures Eval(JoinTristateAnd(s, a, b).value, v) == Combine(AndOp, Eval(a, v), Eval(b, v))
  {
    TextsApart(s, v);
    if a.Equal? && b.Unequal? && IsConst(a.rsym) && IsConst(b.rsym) {
      EqualUnequalExact(s, a.rsym, b.rsym, v);
    } else if a.Unequal? && b.Equal? && IsConst(a.rsym) && IsConst(b.rsym) {
      EqualUnequalExact(s, b.rsym, a.rsym, v);
    }
  }

  lemma JoinAndExact(a: Expr, b: Expr, v: Valuation)
    requires JoinAnd(a, b).Just?
    ensures Eval(JoinAnd(a, b).value, v) == Combine(AndOp, Eval(a, v), Eval(b, v))
  {
    hide Eq;
    if Eq(a, b) {
      EqSound(a, b, v);
    } else {
      var s := SubjectOf(a);
      TextsApart(s, v);
      if !SymbolAnd(a, b, true, Yes) && !SymbolAnd(a, b, false, No) && !SymbolAnd(a, b, false, Mod) {
        JoinTristateAndExact(s, a, b, v);
      }
    }
  }

  /** Whatever a pair of operands is replaced by has exactly the value of the pair. */
  lemma JoinExact(op: Junction, a: Expr, b: Expr, v: Valuation)
    requires Join(op, a, b).Just?
    ensures Eval(Join(op, a, b).value, v) == Combine(op, Eval(a, v), Eval(b, v))
  {
    hide JoinOr, JoinAnd, Eval, Combine;
    if op.OrOp? { JoinOrExact(a, b, v); } else { JoinAndExact(a, b, v); }
  }
}
