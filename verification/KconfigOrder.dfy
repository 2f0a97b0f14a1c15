/** What expr_eq decides on trees without the constants y and n: equality up to the order and the
    grouping of operands. */
module KconfigOrder {
  import opened KconfigLogic

  /** A tree without the order and the grouping of operands. */
  datatype Form = Leaf(e: Expr) | Negated(arg: Form) | Chain(op: Junction, parts: multiset<Form>)

  predicate IsChain(op: Junction, e: Expr) { e.Bin? && e.op == op }

  function FormOf(e: Expr): Form
    decreases e, 0
  {
    match e
    case Not(a) => Negated(FormOf(a))
    case Bin(op, l, r) => Chain(op, Parts(op, l) + Parts(op, r))
    case _ => Leaf(e)
  }

  function Parts(op: Junction, e: Expr): multiset<Form>
    decreases e, 1
  {
    if IsChain(op, e) then Parts(op, e.left) + Parts(op, e.right) else multiset{FormOf(e)}
  }

  predicate IsYn(e: Expr) { e == Sym(Yes) || e == Sym(No) }

  /** No y and no n anywhere but in comparisons. */
  predicate NoYn(e: Expr)
  {
    match e
    case Not(a) => NoYn(a)
    case Bin(_, l, r) => NoYn(l) && NoYn(r)
    case _ => !IsYn(e)
  }

  /** A chain as it is while operands are taken out: the unit stands where they were. */
  predicate Tidy(op: Junction, e: Expr)
  {
    if IsChain(op, e) then Tidy(op, e.left) && Tidy(op, e.right) else e == Sym(Unit(op)) || NoYn(e)
  }

  /** The operands still there. */
  function Rest(op: Junction, e: Expr): multiset<Form>
  {
    if IsChain(op, e) then Rest(op, e.left) + Rest(op, e.right)
    else if e == Sym(Unit(op)) then multiset{}
    else multiset{FormOf(e)}
  }

  lemma {:induction false} RestIsParts(op: Junction, e: Expr)
    requires NoYn(e)
    ensures Tidy(op, e) && Rest(op, e) == Parts(op, e)
  {
    if IsChain(op, e) {
      RestIsParts(op, e.left);
      RestIsParts(op, e.right);
    }
  }

  /** Taking b away in two steps, and what is left of it. */
  lemma TakenTwice(l: multiset<Form>, r: multiset<Form>, b: multiset<Form>)
    ensures (l - b) + (r - (b - l)) == (l + r) - b
    ensures (b - l) - r == b - (l + r)
  {
  }

  /** __expr_eliminate_eq takes out of both sides what they have in common. */
  lemma {:induction false} CancelTakes(op: Junction, a: Expr, b: Expr)
    requires Tidy(op, a) && Tidy(op, b)
    ensures var (x, y) := Cancel(op, a, b);
            Tidy(op, x) && Tidy(op, y) && Rest(op, x) == Rest(op, a) - Rest(op, b) && Rest(op, y) == Rest(op, b) - Rest(op, a)
    decreases Size(a) + Size(b), if IsChain(op, a) || IsChain(op, b) then 0 else 4
  {
    hide Eq, NoYn, FormOf, Parts;
    if IsChain(op, a) {
      var (l, b1) := Cancel(op, a.left, b);
      CancelTakes(op, a.left, b);
      CancelTakes(op, a.right, b1);
      TakenTwice(Rest(op, a.left), Rest(op, a.right), Rest(op, b));
    } else if IsChain(op, b) {
      var (a1, l) := Cancel(op, a, b.left);
      CancelTakes(op, a, b.left);
      CancelTakes(op, a1, b.right);
      TakenTwice(Rest(op, b.left), Rest(op, b.right), Rest(op, a));
    } else {
      CancelTakesHere(op, a, b);
    }
  }

  lemma {:induction false} CancelTakesHere(op: Junction, a: Expr, b: Expr)
    requires Tidy(op, a) && Tidy(op, b) && !IsChain(op, a) && !IsChain(op, b)
    ensures var (x, y) := Cancel(op, a, b);
            Tidy(op, x) && Tidy(op, y) && Rest(op, x) == Rest(op, a) - Rest(op, b) && Rest(op, y) == Rest(op, b) - Rest(op, a)
    decreases Size(a) + Size(b), 3
  {
    var unit := Sym(Unit(op));
    if a == unit || b == unit {
      UnitStays(op, a, b);
    } else {
      EqExactly(a, b);
      OneAndOne(op, a, b);
    }
  }

  /** The unit is not taken out, and nothing is for its sake. */
  lemma UnitStays(op: Junction, a: Expr, b: Expr)
    requires Tidy(op, a) && Tidy(op, b) && !IsChain(op, a) && !IsChain(op, b) && (a == Sym(Unit(op)) || b == Sym(Unit(op)))
    ensures Cancel(op, a, b) == (a, b)
  {
    hide NoYn, FirstPhase, SecondPhase, EliminateYn;
    assert Eq(a, b) ==> a == b;
  }

  lemma OneAndOne(op: Junction, a: Expr, b: Expr)
    requires NoYn(a) && NoYn(b) && !IsChain(op, a) && !IsChain(op, b)
    requires Eq(a, b) <==> FormOf(a) == FormOf(b)
    ensures var (x, y) := Cancel(op, a, b);
            Tidy(op, x) && Tidy(op, y) && Rest(op, x) == Rest(op, a) - Rest(op, b) && Rest(op, y) == Rest(op, b) - Rest(op, a)
  {
    hide *;
    CancelOne(op, a, b);
    OneRest(op, a);
    OneRest(op, b);
    UnitRest(op);
    Singles(FormOf(a), FormOf(b));
    Singles(FormOf(b), FormOf(a));
  }

  lemma CancelOne(op: Junction, a: Expr, b: Expr)
    requires NoYn(a) && !IsChain(op, a) && !IsChain(op, b)
    ensures Cancel(op, a, b) == if Eq(a, b) then (Sym(Unit(op)), Sym(Unit(op))) else (a, b)
  {
    assert !IsYn(a);
    hide NoYn, Eq;
  }

  lemma OneRest(op: Junction, a: Expr)
    requires NoYn(a) && !IsChain(op, a)
    ensures Tidy(op, a) && Rest(op, a) == multiset{FormOf(a)}
  {
    assert !IsYn(a);
    hide NoYn, FormOf;
  }

  lemma UnitRest(op: Junction)
    ensures Tidy(op, Sym(Unit(op))) && Rest(op, Sym(Unit(op))) == multiset{}
  {
  }

  lemma Singles(f: Form, g: Form)
    ensures multiset{f} - multiset{g} == if f == g then multiset{} else multiset{f}
  {
  }

  lemma {:induction false} NoYnStays(e: Expr)
    requires NoYn(e)
    ensures EliminateYn(e) == e
  {
    if e.Bin? {
      NoYnStays(e.left);
      NoYnStays(e.right);
    }
  }

  /** What folding makes of a chain with these operands left: the unit if there are none, and a symbol
      only if it is the only one. */
  ghost predicate Folded(op: Junction, rest: multiset<Form>, e: Expr)
  {
    if rest == multiset{} then e == Sym(Unit(op)) else !IsYn(e) && (e.Sym? ==> rest == multiset{Leaf(e)})
  }

  lemma JoinFolded(op: Junction, s: multiset<Form>, t: multiset<Form>, l: Expr, r: Expr)
    requires Folded(op, s, l) && Folded(op, t, r)
    ensures Folded(op, s + t, JoinYn(op, l, r))
  {
    if s == multiset{} {
      assert s + t == t;
    } else if t == multiset{} {
      assert s + t == s;
    } else {
      assert |s + t| == |s| + |t|;
    }
  }

  lemma {:induction false} FoldsTo(op: Junction, e: Expr)
    requires Tidy(op, e)
    ensures Folded(op, Rest(op, e), EliminateYn(e))
  {
    hide Folded, NoYn, FormOf, JoinYn;
    if IsChain(op, e) {
      FoldsTo(op, e.left);
      FoldsTo(op, e.right);
      JoinFolded(op, Rest(op, e.left), Rest(op, e.right), EliminateYn(e.left), EliminateYn(e.right));
    } else {
      OneFolded(op, e);
    }
  }

  lemma OneFolded(op: Junction, e: Expr)
    requires Tidy(op, e) && !IsChain(op, e)
    ensures Folded(op, Rest(op, e), EliminateYn(e))
  {
    if e != Sym(Unit(op)) { NoYnStays(e); }
  }

  /** expr_eq on trees without y and n is equality up to order and grouping. */
  lemma {:induction false} EqExactly(a: Expr, b: Expr)
    requires NoYn(a) && NoYn(b)
    ensures Eq(a, b) <==> FormOf(a) == FormOf(b)
    decreases Size(a) + Size(b), 2
  {
    match a {
      case Not(x) => if b.Not? { EqExactly(x, b.arg); }
      case Bin(op, _, _) => if IsChain(op, b) { ChainsEqExactly(op, a, b); }
      case _ =>
    }
  }

  lemma {:induction false} ChainsEqExactly(op: Junction, a: Expr, b: Expr)
    requires NoYn(a) && NoYn(b) && IsChain(op, a) && IsChain(op, b)
    ensures Eq(a, b) <==> FormOf(a) == FormOf(b)
    decreases Size(a) + Size(b), 1
  {
    var (x, y) := Cancel(op, a, b);
    assert FirstPhase(a, b) == (x, y) && SecondPhase(x, y) == (x, y);
    assert Eq(a, b) <==> EliminateYn(x).Sym? && EliminateYn(x) == EliminateYn(y);
    RestIsParts(op, a);
    RestIsParts(op, b);
    CancelTakes(op, a, b);
    assert FormOf(a) == Chain(op, Rest(op, a)) && FormOf(b) == Chain(op, Rest(op, b));
    hide *;
    FoldsTo(op, x);
    FoldsTo(op, y);
    LeftAlike(op, Rest(op, a), Rest(op, b), EliminateYn(x), EliminateYn(y));
  }

  /** What is left on either side cannot be one and the same symbol. */
  lemma LeftAlike(op: Junction, s: multiset<Form>, t: multiset<Form>, x: Expr, y: Expr)
    requires Folded(op, s - t, x) && Folded(op, t - s, y)
    ensures x.Sym? && x == y <==> s == t
  {
    if x.Sym? && x == y {
      assert s - t == multiset{} <==> t - s == multiset{};
      assert Leaf(x) !in s - t || Leaf(x) !in t - s;
      forall f ensures s[f] == t[f] { assert f !in s - t && f !in t - s; }
      assert s == t;
    }
    if s == t { assert s - t == multiset{} && t - s == multiset{}; }
  }
}
