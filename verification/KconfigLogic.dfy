/** Kconfig's three-valued expressions: no < mod < yes, AND is minimum, OR is maximum, NOT is
    2 - x, and comparisons are of the symbols' strings. */
module KconfigLogic {

  datatype Maybe<T> = Nothing | Just(value: T)

  type Tri = x: int | 0 <= x <= 2

  const NO: Tri := 0
  const MOD: Tri := 1
  const YES: Tri := 2

  datatype Kind = Boolean | Tristate | Other

  /** A config symbol, one of the three constant symbols, or a quoted constant. */
  datatype SymbolName = Yes | Mod | No | Quoted(text: string) | Config(id: nat, kind: Kind)

  /** sym_lookup gives the constants y, m and n one symbol each however they are written. */
  type Symbol = s: SymbolName | s.Quoted? ==> s.text !in {"y", "m", "n"} witness Yes

  predicate IsConst(s: Symbol) { !s.Config? }

  datatype Junction = OrOp | AndOp

  datatype Expr =
    | Sym(sym: Symbol)
    | Not(arg: Expr)
    | Bin(op: Junction, left: Expr, right: Expr)
    | Equal(lsym: Symbol, rsym: Symbol)
    | Unequal(lsym: Symbol, rsym: Symbol)

  /** Values of the config symbols: booleans are no or yes. */
  datatype Valuation = Valuation(bools: nat -> bool, tris: nat -> Tri, texts: nat -> string)

  /** What counts for symbols that are not tristate, and for all symbols without modules. */
  function RoundUp(t: Tri): Tri { if t == MOD then YES else t }

  function Text(t: Tri): string
  {
    if t == NO then "n" else if t == MOD then "m" else "y"
  }

  function SymTri(s: Symbol, v: Valuation): Tri
  {
    match s
    case Yes => YES
    case Mod => MOD
    case No => NO
    case Quoted(_) => NO
    case Config(id, Boolean) => if v.bools(id) then YES else NO
    case Config(id, Tristate) => v.tris(id)
    case Config(_, Other) => NO
  }

  /** sym_get_string_value */
  function SymText(s: Symbol, v: Valuation): string
  {
    match s
    case Yes => "y"
    case Mod => "m"
    case No => "n"
    case Quoted(text) => text
    case Config(id, Other) => v.texts(id)
    case Config(_, _) => Text(SymTri(s, v))
  }

  function Combine(op: Junction, a: Tri, b: Tri): Tri
  {
    if op.OrOp? then (if a > b then a else b) else (if a < b then a else b)
  }

  /** expr_calc_value */
  function Eval(e: Expr, v: Valuation): Tri
  {
    match e
    case Sym(s) => SymTri(s, v)
    case Not(a) => 2 - Eval(a, v)
    case Bin(op, l, r) => Combine(op, Eval(l, v), Eval(r, v))
    case Equal(s, t) => if SymText(s, v) == SymText(t, v) then YES else NO
    case Unequal(s, t) => if SymText(s, v) == SymText(t, v) then NO else YES
  }

  /** The constant that leaves its partner's value alone. */
  function Unit(op: Junction): Symbol { if op.OrOp? then No else Yes }

  function UnitValue(op: Junction): Tri { if op.OrOp? then NO else YES }

  function Size(e: Expr): (n: nat)
    ensures n > 0
  {
    match e
    case Not(a) => 1 + Size(a)
    case Bin(_, l, r) => 1 + Size(l) + Size(r)
    case _ => 1
  }

  function Leaves(e: Expr): (n: nat)
    ensures n > 0
  {
    match e
    case Not(a) => Leaves(a)
    case Bin(_, l, r) => Leaves(l) + Leaves(r)
    case _ => 1
  }

  // ---- expr_eliminate_yn ----

  /** An AND or OR of two trees without redundant constants. */
  function JoinYn(op: Junction, l: Expr, r: Expr): Expr
  {
    var unit, zero := Unit(op), if op.OrOp? then Yes else No;
    if l == Sym(zero) then Sym(zero)
    else if l == Sym(unit) then r
    else if r == Sym(zero) then Sym(zero)
    else if r == Sym(unit) then l
    else Bin(op, l, r)
  }

  /** Constants y and n under AND and OR are folded away. */
  function EliminateYn(e: Expr): (r: Expr)
    ensures Size(r) <= Size(e) && Leaves(r) <= Leaves(e)
  {
    match e
    case Bin(op, l, r) => JoinYn(op, EliminateYn(l), EliminateYn(r))
    case _ => e
  }

  lemma {:induction false} EliminateYnPreserves(e: Expr, v: Valuation)
    ensures Eval(EliminateYn(e), v) == Eval(e, v)
  {
    match e {
      case Bin(op, l, r) =>
        EliminateYnPreserves(l, v);
        EliminateYnPreserves(r, v);
      case _ =>
    }
  }

  /** Some AND or OR has the constant y or n as an operand. */
  predicate HasConst(e: Expr)
  {
    match e
    case Bin(_, l, r) => l == Sym(Yes) || l == Sym(No) || r == Sym(Yes) || r == Sym(No) || HasConst(l) || HasConst(r)
    case _ => false
  }

  lemma {:induction false} EliminateYnShrinks(e: Expr)
    requires HasConst(e)
    ensures Leaves(EliminateYn(e)) < Leaves(e)
  {
    match e {
      case Bin(op, l, r) =>
        if HasConst(l) { EliminateYnShrinks(l); }
        if HasConst(r) { EliminateYnShrinks(r); }
      case _ =>
    }
  }

  /** Nothing is left to fold. */
  lemma {:induction false} EliminateYnComplete(e: Expr)
    ensures !HasConst(EliminateYn(e))
  {
    match e {
      case Bin(op, l, r) =>
        EliminateYnComplete(l);
        EliminateYnComplete(r);
      case _ =>
    }
  }

  // ---- expr_eq and expr_eliminate_eq ----

  /** expr_eq: equal symbols, or trees that differ only in the order and repetition of operands
      as far as expr_eliminate_eq can see. */
  predicate Eq(a: Expr, b: Expr)
    decreases Size(a) + Size(b), 3
  {
    match a
    case Sym(_) => a == b
    case Equal(_, _) => a == b
    case Unequal(_, _) => a == b
    case Not(x) => b.Not? && Eq(x, b.arg)
    case Bin(op, _, _) =>
      b.Bin? && b.op == op &&
      var (x, y) := EliminateEq(a, b);
      x.Sym? && x == y
  }

  /** The first phase of expr_eliminate_eq, for the left side's root, and the second, for the right's. */
  function FirstPhase(a: Expr, b: Expr): (r: (Expr, Expr))
    ensures Size(r.0) <= Size(a) && Size(r.1) <= Size(b)
    decreases Size(a) + Size(b), 1
  {
    if a.Bin? then Cancel(a.op, a, b) else (a, b)
  }

  function SecondPhase(a: Expr, b: Expr): (r: (Expr, Expr))
    ensures Size(r.0) <= Size(a) && Size(r.1) <= Size(b)
    decreases Size(a) + Size(b), 1
  {
    if b.Bin? && !(a.Bin? && a.op == b.op) then Cancel(b.op, a, b) else (a, b)
  }

  /** expr_eliminate_eq: operands found on both sides are replaced by the unit and folded away. */
  function EliminateEq(a: Expr, b: Expr): (r: (Expr, Expr))
    ensures Size(r.0) <= Size(a) && Size(r.1) <= Size(b)
    decreases Size(a) + Size(b), 2
  {
    var (x, y) := FirstPhase(a, b);
    var (z, w) := SecondPhase(x, y);
    (EliminateYn(z), EliminateYn(w))
  }

  /** __expr_eliminate_eq */
  function Cancel(op: Junction, a: Expr, b: Expr): (r: (Expr, Expr))
    ensures Size(r.0) <= Size(a) && Size(r.1) <= Size(b)
    ensures a.Bin? && a.op == op ==> r.0.Bin? && r.0.op == op
    ensures b.Bin? && b.op == op ==> r.1.Bin? && r.1.op == op
    decreases Size(a) + Size(b), if (a.Bin? && a.op == op) || (b.Bin? && b.op == op) then 0 else 4
  {
    if a.Bin? && a.op == op then
      var (l, b1) := Cancel(op, a.left, b);
      var (r, b2) := Cancel(op, a.right, b1);
      (Bin(op, l, r), b2)
    else if b.Bin? && b.op == op then
      var (a1, l) := Cancel(op, a, b.left);
      var (a2, r) := Cancel(op, a1, b.right);
      (a2, Bin(op, l, r))
    else if a == b && (a == Sym(Yes) || a == Sym(No)) then (a, b)
    else if Eq(a, b) then (Sym(Unit(op)), Sym(Unit(op)))
    else (a, b)
  }

  /** a and b are the one value c combined with x and with y. */
  ghost predicate Shared(op: Junction, a: Tri, b: Tri, x: Tri, y: Tri, c: Tri)
  {
    a == Combine(op, c, x) && b == Combine(op, c, y)
  }

  ghost predicate Shares(op: Junction, a: Expr, b: Expr, x: Expr, y: Expr, v: Valuation, c: Tri)
  {
    Shared(op, Eval(a, v), Eval(b, v), Eval(x, v), Eval(y, v), c)
  }

  /** What the two sides of a chain share with b in turn, the chain shares with it. */
  lemma SharedTwice(op: Junction, a1: Tri, a2: Tri, b: Tri, x1: Tri, x2: Tri, b1: Tri, b2: Tri, c1: Tri, c2: Tri)
    requires Shared(op, a1, b, x1, b1, c1) && Shared(op, a2, b1, x2, b2, c2)
    ensures Shared(op, Combine(op, a1, a2), b, Combine(op, x1, x2), b2, Combine(op, c1, c2))
    ensures Shared(op, b, Combine(op, a1, a2), b2, Combine(op, x1, x2), Combine(op, c1, c2))
  {
  }

  lemma SharedTurned(op: Junction, a: Tri, b: Tri, x: Tri, y: Tri, c: Tri)
    requires Shared(op, a, b, x, y, c)
    ensures Shared(op, b, a, y, x, c)
  {
  }

  lemma SharedNothing(op: Junction, a: Tri, b: Tri)
    ensures Shared(op, a, b, a, b, UnitValue(op))
  {
  }

  lemma SharedAll(op: Junction, a: Tri)
    ensures Shared(op, a, a, UnitValue(op), UnitValue(op), a)
  {
  }

  lemma CombineUnits(op: Junction, a: Tri)
    ensures Combine(op, a, UnitValue(op)) == a && Combine(op, UnitValue(op), a) == a
    ensures forall v :: SymTri(Unit(op), v) == UnitValue(op)
  {
  }

  lemma {:induction false} CancelSplits(op: Junction, a: Expr, b: Expr, v: Valuation) returns (c: Tri)
    ensures var (x, y) := Cancel(op, a, b); Shares(op, a, b, x, y, v, c)
    decreases Size(a) + Size(b), if (a.Bin? && a.op == op) || (b.Bin? && b.op == op) then 0 else 4
  {
    hide Combine, Shared, Eq, UnitValue, Unit;
    if a.Bin? && a.op == op {
      var (l, b1) := Cancel(op, a.left, b);
      var (r, b2) := Cancel(op, a.right, b1);
      var c1 := CancelSplits(op, a.left, b, v);
      var c2 := CancelSplits(op, a.right, b1, v);
      c := Combine(op, c1, c2);
      SharedTwice(op, Eval(a.left, v), Eval(a.right, v), Eval(b, v), Eval(l, v), Eval(r, v), Eval(b1, v), Eval(b2, v), c1, c2);
    } else if b.Bin? && b.op == op {
      var (a1, l) := Cancel(op, a, b.left);
      var (a2, r) := Cancel(op, a1, b.right);
      var c1 := CancelSplits(op, a, b.left, v);
      var c2 := CancelSplits(op, a1, b.right, v);
      c := Combine(op, c1, c2);
      SharedTurned(op, Eval(a, v), Eval(b.left, v), Eval(a1, v), Eval(l, v), c1);
      SharedTurned(op, Eval(a1, v), Eval(b.right, v), Eval(a2, v), Eval(r, v), c2);
      SharedTwice(op, Eval(b.left, v), Eval(b.right, v), Eval(a, v), Eval(l, v), Eval(r, v), Eval(a1, v), Eval(a2, v), c1, c2);
    } else {
      c := CancelHere(op, a, b, v);
    }
  }

  lemma CancelHere(op: Junction, a: Expr, b: Expr, v: Valuation) returns (c: Tri)
    requires !(a.Bin? && a.op == op) && !(b.Bin? && b.op == op)
    ensures var (x, y) := Cancel(op, a, b); Shares(op, a, b, x, y, v, c)
    decreases Size(a) + Size(b), 3
  {
    hide Combine, Shared, Eq, UnitValue, Unit;
    if !(a == b && (a == Sym(Yes) || a == Sym(No))) && Eq(a, b) {
      EqSound(a, b, v);
      c := Eval(a, v);
      CombineUnits(op, c);
      SharedAll(op, c);
    } else {
      c := UnitValue(op);
      SharedNothing(op, Eval(a, v), Eval(b, v));
    }
  }

  /** expr_eq is sound: trees it calls equal have equal values under every valuation. */
  lemma {:induction false} EqSound(a: Expr, b: Expr, v: Valuation)
    requires Eq(a, b)
    ensures Eval(a, v) == Eval(b, v)
    decreases Size(a) + Size(b), 2
  {
    match a {
      case Not(x) => EqSound(x, b.arg, v);
      case Bin(op, _, _) =>
        var c := CancelSplits(op, a, b, v);
        var (x, y) := Cancel(op, a, b);
        assert FirstPhase(a, b) == (x, y) && SecondPhase(x, y) == (x, y);
        EliminateYnPreserves(x, v);
        EliminateYnPreserves(y, v);
      case _ =>
    }
  }

  lemma PhaseSplits(op: Junction, a: Expr, b: Expr, x: Expr, y: Expr, v: Valuation) returns (c: Tri)
    requires (x, y) == Cancel(op, a, b) || (x, y) == (a, b)
    ensures Shares(op, a, b, x, y, v, c)
  {
    if (x, y) == Cancel(op, a, b) {
      c := CancelSplits(op, a, b, v);
    } else {
      c := UnitValue(op);
      SharedNothing(op, Eval(a, v), Eval(b, v));
    }
  }

  /** expr_eliminate_eq leaves residues: combined with one common part per phase they give
      back the original values. */
  lemma EliminateEqSplits(a: Expr, b: Expr, v: Valuation) returns (op1: Junction, op2: Junction, c1: Tri, c2: Tri)
    ensures var (x, y) := EliminateEq(a, b);
            && Eval(a, v) == Combine(op1, c1, Combine(op2, c2, Eval(x, v)))
            && Eval(b, v) == Combine(op1, c1, Combine(op2, c2, Eval(y, v)))
  {
    hide Combine, Eval, Cancel, EliminateYn;
    var (x, y) := FirstPhase(a, b);
    var (z, w) := SecondPhase(x, y);
    op1 := if a.Bin? then a.op else OrOp;
    op2 := if y.Bin? then y.op else OrOp;
    c1 := PhaseSplits(op1, a, b, x, y, v);
    c2 := PhaseSplits(op2, x, y, z, w, v);
    EliminateYnPreserves(z, v);
    EliminateYnPreserves(w, v);
  }
}
