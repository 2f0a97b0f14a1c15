/** Values of symbols: the memoised calculation against a direct recursive definition, and what
    setting a value does. */
module KconfigValue {
  import opened KconfigLogic
  import opened KconfigDeps

  /** A default: the condition under which it applies, and its value. */
  datatype Default = Default(visible: Maybe<Expr>, value: Expr)

  /** What symbols that are neither boolean nor tristate hold. Those that nothing gives a type stand
      for their own name. */
  datatype TextType = Untyped(name: string) | StringType | IntType | HexType

  /** textType counts for kind Other only. */
  datatype Sym3 = Sym3(kind: Kind, textType: TextType, prompts: seq<Maybe<Expr>>, dirDep: Maybe<Expr>, revDep: Maybe<Expr>, defaults: seq<Default>)

  /** All symbols with what users have chosen, as a tristate or as a text; rank orders every symbol
      after those it looks at. */
  datatype World = World(syms: seq<Sym3>, users: seq<Maybe<Tri>>, texts: seq<Maybe<string>>, modules: bool, rank: seq<nat>)

  // ---- well-formed worlds ----

  predicate SymFits(w: World, s: Symbol, bound: nat)
    requires |w.rank| == |w.syms|
  {
    s.Config? ==> s.id < |w.syms| && s.kind == w.syms[s.id].kind && w.rank[s.id] < bound
  }

  /** Every symbol of e exists, has its own kind and comes before the bound. */
  predicate Fits(w: World, e: Expr, bound: nat)
    requires |w.rank| == |w.syms|
  {
    match e
    case Sym(s) => SymFits(w, s, bound)
    case Not(a) => Fits(w, a, bound)
    case Bin(_, l, r) => Fits(w, l, bound) && Fits(w, r, bound)
    case Equal(s, t) => SymFits(w, s, bound) && SymFits(w, t, bound)
    case Unequal(s, t) => SymFits(w, s, bound) && SymFits(w, t, bound)
  }

  predicate MaybeFits(w: World, e: Maybe<Expr>, bound: nat)
    requires |w.rank| == |w.syms|
  {
    e.Just? ==> Fits(w, e.value, bound)
  }

  ghost predicate SymOk(w: World, i: nat)
    requires |w.rank| == |w.syms| && i < |w.syms|
  {
    var d, b := w.syms[i], w.rank[i];
    && MaybeFits(w, d.dirDep, b) && MaybeFits(w, d.revDep, b)
    && (forall k :: 0 <= k < |d.prompts| ==> MaybeFits(w, d.prompts[k], b))
    && (forall k :: 0 <= k < |d.defaults| ==> MaybeFits(w, d.defaults[k].visible, b) && Fits(w, d.defaults[k].value, b))
  }

  ghost predicate Acyclic(w: World)
  {
    |w.rank| == |w.syms| == |w.users| == |w.texts| && forall i :: 0 <= i < |w.syms| ==> SymOk(w, i)
  }

  // ---- the direct definition ----

  ghost function SymValue(w: World, s: Symbol, bound: nat): Tri
    requires Acyclic(w) && SymFits(w, s, bound)
    decreases bound, 0, s
  {
    match s
    case Yes => YES
    case Mod => MOD
    case No => NO
    case Quoted(_) => NO
    case Config(j, _) => Value(w, j)
  }

  ghost function SymString(w: World, s: Symbol, bound: nat): string
    requires Acyclic(w) && SymFits(w, s, bound)
    decreases bound, 1, s
  {
    if s.Quoted? then s.text
    else if s.Config? && s.kind.Other? then TextValue(w, s.id)
    else Text(SymValue(w, s, bound))
  }

  ghost function ExprValue(w: World, e: Expr, bound: nat): Tri
    requires Acyclic(w) && Fits(w, e, bound)
    decreases bound, 2, e
  {
    match e
    case Sym(s) => SymValue(w, s, bound)
    case Not(a) => 2 - ExprValue(w, a, bound)
    case Bin(op, l, r) => Combine(op, ExprValue(w, l, bound), ExprValue(w, r, bound))
    case Equal(s, t) => if SymString(w, s, bound) == SymString(w, t, bound) then YES else NO
    case Unequal(s, t) => if SymString(w, s, bound) == SymString(w, t, bound) then NO else YES
  }

  /** A missing condition counts as y. */
  ghost function MaybeValue(w: World, e: Maybe<Expr>, bound: nat): Tri
    requires Acyclic(w) && MaybeFits(w, e, bound)
    decreases bound, 3
  {
    if e.Just? then ExprValue(w, e.value, bound) else YES
  }

  /** The best of the first n prompts. */
  ghost function PromptValue(w: World, i: nat, n: nat): Tri
    requires Acyclic(w) && i < |w.syms| && n <= |w.syms[i].prompts|
    decreases w.rank[i], 4, n
  {
    if n == 0 then NO
    else
      assert SymOk(w, i);
      Combine(OrOp, PromptValue(w, i, n - 1), MaybeValue(w, w.syms[i].prompts[n - 1], w.rank[i]))
  }

  /** sym_get_type: a tristate is a boolean while modules are off. */
  predicate IsBoolean(w: World, i: nat)
    requires i < |w.syms|
  {
    w.syms[i].kind.Boolean? || (w.syms[i].kind.Tristate? && !w.modules)
  }

  function Rounded(t: Tri, up: bool): Tri { if up then RoundUp(t) else t }

  ghost function Visible(w: World, i: nat): Tri
    requires Acyclic(w) && i < |w.syms|
    decreases w.rank[i], 5
  {
    Rounded(PromptValue(w, i, |w.syms[i].prompts|), !w.syms[i].kind.Tristate? || !w.modules)
  }

  ghost function RevDep(w: World, i: nat): Tri
    requires Acyclic(w) && i < |w.syms|
    decreases w.rank[i], 5
  {
    assert SymOk(w, i);
    if w.syms[i].revDep.Nothing? then NO else Rounded(MaybeValue(w, w.syms[i].revDep, w.rank[i]), IsBoolean(w, i))
  }

  /** From the first default, from k on, whose condition is not no. */
  ghost function DefaultValue(w: World, i: nat, k: nat): Tri
    requires Acyclic(w) && i < |w.syms| && k <= |w.syms[i].defaults|
    decreases w.rank[i], 5, |w.syms[i].defaults| - k
  {
    if k == |w.syms[i].defaults| then NO
    else
      assert SymOk(w, i);
      var d := w.syms[i].defaults[k];
      var vis := MaybeValue(w, d.visible, w.rank[i]);
      if vis != NO then Combine(AndOp, ExprValue(w, d.value, w.rank[i]), vis) else DefaultValue(w, i, k + 1)
  }

  predicate IsUntyped(w: World, i: nat)
    requires i < |w.syms|
  {
    w.syms[i].kind.Other? && w.syms[i].textType.Untyped?
  }

  function ConstText(s: Symbol): string
    requires IsConst(s)
  {
    match s
    case Yes => "y"
    case Mod => "m"
    case No => "n"
    case Quoted(text) => text
  }

  /** curr.val, which is what a default copies. */
  ghost function RawText(w: World, s: Symbol, bound: nat): string
    requires Acyclic(w) && SymFits(w, s, bound)
    decreases bound, 1, s
  {
    if s.Config? then TextValue(w, s.id) else ConstText(s)
  }

  /** From the first default, from k on, whose condition is not no, if it names a symbol. */
  ghost function DefaultText(w: World, i: nat, k: nat): string
    requires Acyclic(w) && i < |w.syms| && k <= |w.syms[i].defaults|
    decreases w.rank[i], 5, |w.syms[i].defaults| - k
  {
    if k == |w.syms[i].defaults| then ""
    else
      assert SymOk(w, i);
      var d := w.syms[i].defaults[k];
      if MaybeValue(w, d.visible, w.rank[i]) == NO then DefaultText(w, i, k + 1)
      else if d.value.Sym? then RawText(w, d.value.sym, w.rank[i])
      else ""
  }

  /** The user's text while the symbol is visible, or the default's; an untyped symbol's name. On
      booleans and tristates this part of the value is "n" throughout. */
  ghost function TextValue(w: World, i: nat): string
    requires Acyclic(w) && i < |w.syms|
    decreases w.rank[i], 6
  {
    if !w.syms[i].kind.Other? then "n"
    else if IsUntyped(w, i) then w.syms[i].textType.name
    else if Visible(w, i) != NO && w.texts[i].Just? then w.texts[i].value
    else DefaultText(w, i, 0)
  }

  /** What the user chose, limited by visibility, or the default; at least what others select.
      Symbols that are neither boolean nor tristate count as n. */
  ghost function Value(w: World, i: nat): Tri
    requires Acyclic(w) && i < |w.syms|
    decreases w.rank[i], 6
  {
    if w.syms[i].kind.Other? then NO
    else
      var own := if Visible(w, i) != NO && w.users[i].Just? then Combine(AndOp, w.users[i].value, Visible(w, i)) else DefaultValue(w, i, 0);
      Rounded(Combine(OrOp, own, RevDep(w, i)), IsBoolean(w, i))
  }

  // ---- it agrees with evaluating expressions under the valuation it defines ----

  ghost function ValuationOf(w: World): Valuation
    requires Acyclic(w)
  {
    Valuation((j: nat) => j < |w.syms| && Value(w, j) == YES, (j: nat) => if j < |w.syms| then Value(w, j) else NO,
              (j: nat) => if j < |w.syms| then TextValue(w, j) else "")
  }

  lemma BooleansAreDefinite(w: World, i: nat)
    requires Acyclic(w) && i < |w.syms| && IsBoolean(w, i)
    ensures Value(w, i) != MOD
  {
  }

  lemma SymAgrees(w: World, s: Symbol, bound: nat)
    requires Acyclic(w) && SymFits(w, s, bound)
    ensures SymValue(w, s, bound) == SymTri(s, ValuationOf(w)) && SymString(w, s, bound) == SymText(s, ValuationOf(w))
  {
    if s.Config? && s.kind.Boolean? { BooleansAreDefinite(w, s.id); }
    hide Value;
  }

  /** Expressions mean here what they mean to the expression rewriter. */
  lemma {:induction false} ExprAgrees(w: World, e: Expr, bound: nat)
    requires Acyclic(w) && Fits(w, e, bound)
    ensures ExprValue(w, e, bound) == Eval(e, ValuationOf(w))
  {
    hide SymValue, SymString, ValuationOf, Acyclic;
    match e {
      case Sym(s) => SymAgrees(w, s, bound);
      case Not(a) => ExprAgrees(w, a, bound);
      case Bin(_, l, r) =>
        ExprAgrees(w, l, bound);
        ExprAgrees(w, r, bound);
      case Equal(s, t) =>
        SymAgrees(w, s, bound);
        SymAgrees(w, t, bound);
      case Unequal(s, t) =>
        SymAgrees(w, s, bound);
        SymAgrees(w, t, bound);
    }
  }

  // ---- what depends on a user's choice ----

  datatype Choice = OfTri(tri: Tri) | OfText(text: string)

  function Choose(w: World, i: nat, c: Choice): World
    requires i < |w.users| && i < |w.texts|
  {
    match c
    case OfTri(t) => w.(users := w.users[i := Just(t)])
    case OfText(t) => w.(texts := w.texts[i := Just(t)])
  }

  lemma {:induction false} FitsChosen(w: World, i: nat, c: Choice, e: Expr, b: nat)
    requires |w.rank| == |w.syms| && i < |w.users| && i < |w.texts| && Fits(w, e, b)
    ensures Fits(Choose(w, i, c), e, b)
  {
    match e {
      case Not(a) => FitsChosen(w, i, c, a, b);
      case Bin(_, l, r) =>
        FitsChosen(w, i, c, l, b);
        FitsChosen(w, i, c, r, b);
      case _ =>
    }
  }

  lemma ChosenAcyclic(w: World, i: nat, c: Choice)
    requires Acyclic(w) && i < |w.syms|
    ensures Acyclic(Choose(w, i, c))
  {
    var v := Choose(w, i, c);
    forall e, b: nat | Fits(w, e, b) ensures Fits(v, e, b) { FitsChosen(w, i, c, e, b); }
    forall j | 0 <= j < |v.syms| ensures SymOk(v, j) { assert SymOk(w, j); }
  }

  ghost predicate SameAt(w: World, v: World, j: nat)
    requires Acyclic(w) && Acyclic(v) && j < |w.syms| && j < |v.syms|
  {
    Value(w, j) == Value(v, j) && TextValue(w, j) == TextValue(v, j)
  }

  /** Either nothing that ranks below the bound looks at i, or i has kept its value. */
  ghost predicate Untouched(w: World, i: nat, c: Choice, bound: nat)
    requires Acyclic(w) && i < |w.syms| && Acyclic(Choose(w, i, c))
  {
    bound <= w.rank[i] || SameAt(w, Choose(w, i, c), i)
  }

  lemma {:induction false} SymKept(w: World, i: nat, c: Choice, s: Symbol, b: nat)
    requires Acyclic(w) && i < |w.syms| && Acyclic(Choose(w, i, c)) && Untouched(w, i, c, b)
    requires SymFits(w, s, b)
    ensures var v := Choose(w, i, c);
            && SymValue(w, s, b) == SymValue(v, s, b) && SymString(w, s, b) == SymString(v, s, b)
            && RawText(w, s, b) == RawText(v, s, b)
    decreases b, 0
  {
    if s.Config? && s.id != i { SameKept(w, i, c, s.id); }
    hide Value, TextValue, Acyclic;
  }

  lemma {:induction false} ExprKept(w: World, i: nat, c: Choice, e: Expr, b: nat)
    requires Acyclic(w) && i < |w.syms| && Acyclic(Choose(w, i, c)) && Untouched(w, i, c, b)
    requires Fits(w, e, b) && Fits(Choose(w, i, c), e, b)
    ensures ExprValue(w, e, b) == ExprValue(Choose(w, i, c), e, b)
    decreases b, 1, e
  {
    hide Acyclic, SymValue, SymString, RawText, Choose, Untouched;
    match e {
      case Sym(s) => SymKept(w, i, c, s, b);
      case Not(a) => ExprKept(w, i, c, a, b);
      case Bin(_, l, r) =>
        ExprKept(w, i, c, l, b);
        ExprKept(w, i, c, r, b);
      case Equal(s, t) =>
        SymKept(w, i, c, s, b);
        SymKept(w, i, c, t, b);
      case Unequal(s, t) =>
        SymKept(w, i, c, s, b);
        SymKept(w, i, c, t, b);
    }
  }

  lemma MaybeKept(w: World, i: nat, c: Choice, e: Maybe<Expr>, b: nat)
    requires Acyclic(w) && i < |w.syms| && Acyclic(Choose(w, i, c)) && Untouched(w, i, c, b)
    requires MaybeFits(w, e, b) && MaybeFits(Choose(w, i, c), e, b)
    ensures MaybeValue(w, e, b) == MaybeValue(Choose(w, i, c), e, b)
    decreases b, 2
  {
    hide Acyclic, Choose, Untouched;
    if e.Just? { ExprKept(w, i, c, e.value, b); }
  }

  lemma {:induction false} PromptKept(w: World, i: nat, c: Choice, j: nat, n: nat)
    requires Acyclic(w) && i < |w.syms| && j < |w.syms| && Acyclic(Choose(w, i, c)) && Untouched(w, i, c, w.rank[j])
    requires n <= |w.syms[j].prompts|
    ensures PromptValue(w, j, n) == PromptValue(Choose(w, i, c), j, n)
    decreases w.rank[j], 3, n
  {
    assert SymOk(w, j) && SymOk(Choose(w, i, c), j);
    if n > 0 {
      PromptKept(w, i, c, j, n - 1);
      MaybeKept(w, i, c, w.syms[j].prompts[n - 1], w.rank[j]);
    }
  }

  lemma {:induction false} DefaultKept(w: World, i: nat, c: Choice, j: nat, k: nat)
    requires Acyclic(w) && i < |w.syms| && j < |w.syms| && Acyclic(Choose(w, i, c)) && Untouched(w, i, c, w.rank[j])
    requires k <= |w.syms[j].defaults|
    ensures DefaultValue(w, j, k) == DefaultValue(Choose(w, i, c), j, k)
    ensures DefaultText(w, j, k) == DefaultText(Choose(w, i, c), j, k)
    decreases w.rank[j], 3, |w.syms[j].defaults| - k
  {
    assert SymOk(w, j) && SymOk(Choose(w, i, c), j);
    hide Acyclic, Untouched, RawText;
    if k < |w.syms[j].defaults| {
      var d := w.syms[j].defaults[k];
      MaybeKept(w, i, c, d.visible, w.rank[j]);
      ExprKept(w, i, c, d.value, w.rank[j]);
      if d.value.Sym? { SymKept(w, i, c, d.value.sym, w.rank[j]); }
      DefaultKept(w, i, c, j, k + 1);
    }
  }

  /** Visibility, selection and defaults of a symbol that looks at nothing changed. */
  lemma InputsKept(w: World, i: nat, c: Choice, j: nat)
    requires Acyclic(w) && i < |w.syms| && j < |w.syms| && Acyclic(Choose(w, i, c)) && Untouched(w, i, c, w.rank[j])
    ensures var v := Choose(w, i, c);
            && Visible(w, j) == Visible(v, j) && RevDep(w, j) == RevDep(v, j)
            && DefaultValue(w, j, 0) == DefaultValue(v, j, 0) && DefaultText(w, j, 0) == DefaultText(v, j, 0)
    decreases w.rank[j], 4
  {
    assert SymOk(w, j) && SymOk(Choose(w, i, c), j);
    PromptKept(w, i, c, j, |w.syms[j].prompts|);
    DefaultKept(w, i, c, j, 0);
    MaybeKept(w, i, c, w.syms[j].revDep, w.rank[j]);
    hide Acyclic, Untouched, PromptValue, DefaultValue, DefaultText, MaybeValue;
  }

  /** Every other symbol keeps its value if i does, or if it ranks no higher than i. */
  lemma SameKept(w: World, i: nat, c: Choice, j: nat)
    requires Acyclic(w) && i < |w.syms| && j < |w.syms| && i != j && Acyclic(Choose(w, i, c)) && Untouched(w, i, c, w.rank[j])
    ensures SameAt(w, Choose(w, i, c), j)
    decreases w.rank[j], 5
  {
    InputsKept(w, i, c, j);
    hide Visible, RevDep, DefaultValue, DefaultText, Untouched, Acyclic;
  }

  /** On a visible symbol the choice val comes back as its value unless val exceeds both what is
      visible and what is selected. */
  lemma ChoiceComesBack(w: World, i: nat, val: Tri)
    requires Acyclic(w) && i < |w.syms| && !w.syms[i].kind.Other? && Acyclic(Choose(w, i, OfTri(val)))
    requires Visible(w, i) != NO && RevDep(w, i) <= val && (IsBoolean(w, i) ==> val != MOD)
    ensures Value(Choose(w, i, OfTri(val)), i) == val <==> (val <= Visible(w, i) || val == RevDep(w, i))
  {
    assert Untouched(w, i, OfTri(val), w.rank[i]);
    InputsKept(w, i, OfTri(val), i);
    RoundedRange(w, i);
    hide Visible, RevDep, DefaultValue, DefaultText, Untouched, Acyclic;
  }

  /** Where more is visible than selected, a choice comes back exactly if it is within both, and m only for
      tristates. */
  lemma ChangeComesBack(w: World, i: nat, val: Tri)
    requires Acyclic(w) && i < |w.syms| && !w.syms[i].kind.Other? && Acyclic(Choose(w, i, OfTri(val))) && Visible(w, i) > RevDep(w, i)
    ensures Value(Choose(w, i, OfTri(val)), i) == val <==> !(IsBoolean(w, i) && val == MOD) && RevDep(w, i) <= val <= Visible(w, i)
  {
    assert Untouched(w, i, OfTri(val), w.rank[i]);
    InputsKept(w, i, OfTri(val), i);
    RoundedRange(w, i);
    hide Visible, RevDep, DefaultValue, DefaultText, Untouched, Acyclic;
  }

  lemma RoundedRange(w: World, i: nat)
    requires Acyclic(w) && i < |w.syms|
    ensures IsBoolean(w, i) ==> Visible(w, i) != MOD && RevDep(w, i) != MOD && Value(w, i) != MOD
    ensures !w.syms[i].kind.Other? ==> Value(w, i) >= RevDep(w, i)
  {
    hide PromptValue, DefaultValue, DefaultText, MaybeValue, Acyclic;
  }

  /** With the value it already has chosen by the user, a symbol keeps that value exactly when it
      is not visible, or the value is within what is visible or selected. */
  lemma SameChoiceKeeps(w: World, i: nat)
    requires Acyclic(w) && i < |w.syms| && !w.syms[i].kind.Other? && Acyclic(Choose(w, i, OfTri(Value(w, i))))
    ensures var v := Choose(w, i, OfTri(Value(w, i)));
            Value(v, i) == Value(w, i) <==> (Visible(w, i) == NO || Value(w, i) <= Visible(w, i) || Value(w, i) == RevDep(w, i))
  {
    var c := OfTri(Value(w, i));
    RoundedRange(w, i);
    if Visible(w, i) != NO {
      ChoiceComesBack(w, i, Value(w, i));
    } else {
      assert Untouched(w, i, c, w.rank[i]);
      InputsKept(w, i, c, i);
      hide Visible, RevDep, DefaultValue, DefaultText, Untouched, Acyclic;
    }
  }

  /** A tristate visible as m that defaults to y is y; with y chosen it is m. */
  const LOSING_SYMBOL: Sym3 := Sym3(Tristate, StringType, [Just(Sym(Mod))], Nothing, Nothing, [Default(Nothing, Sym(Yes))])
  const LOSING_WORLD: World := World([LOSING_SYMBOL], [Nothing], [Nothing], true, [0])

  lemma SameChoiceCanLose()
    ensures Acyclic(LOSING_WORLD) && Acyclic(Choose(LOSING_WORLD, 0, OfTri(YES)))
    ensures Value(LOSING_WORLD, 0) == YES && Value(Choose(LOSING_WORLD, 0, OfTri(YES)), 0) == MOD
  {
    assert SymOk(LOSING_WORLD, 0);
    ChosenAcyclic(LOSING_WORLD, 0, OfTri(YES));
    LosingInputs(LOSING_WORLD);
    LosingInputs(Choose(LOSING_WORLD, 0, OfTri(YES)));
    hide Visible, RevDep, DefaultValue, Acyclic;
  }

  lemma ConstsAre(w: World, b: nat)
    requires Acyclic(w)
    ensures Fits(w, Sym(Mod), b) && ExprValue(w, Sym(Mod), b) == MOD && Fits(w, Sym(Yes), b) && ExprValue(w, Sym(Yes), b) == YES
  {
    hide Acyclic;
  }

  lemma LosingInputs(w: World)
    requires Acyclic(w) && w.syms == [LOSING_SYMBOL] && w.modules
    ensures Visible(w, 0) == MOD && RevDep(w, 0) == NO && DefaultValue(w, 0, 0) == YES
  {
    var b := w.rank[0];
    assert SymOk(w, 0) && w.syms[0] == LOSING_SYMBOL;
    ConstsAre(w, b);
    assert MaybeValue(w, Just(Sym(Mod)), b) == MOD && MaybeValue(w, Nothing, b) == YES;
    hide ExprValue, Acyclic;
    assert PromptValue(w, 0, 0) == NO && PromptValue(w, 0, 1) == MOD;
  }

  /** A chosen text comes back exactly when the symbol is visible, or would have that text anyway. */
  lemma TextComesBack(w: World, i: nat, text: string)
    requires Acyclic(w) && i < |w.syms| && w.syms[i].kind.Other? && !IsUntyped(w, i) && Acyclic(Choose(w, i, OfText(text)))
    ensures var v := Choose(w, i, OfText(text));
            && Visible(v, i) == Visible(w, i) && DefaultText(v, i, 0) == DefaultText(w, i, 0)
            && (TextValue(v, i) == text <==> (Visible(w, i) != NO || DefaultText(w, i, 0) == text))
  {
    var c := OfText(text);
    assert Untouched(w, i, c, w.rank[i]);
    InputsKept(w, i, c, i);
    hide Visible, RevDep, DefaultValue, DefaultText, Untouched, Acyclic;
  }

  /** If a new choice leaves a symbol's value alone, nothing else changes either. */
  lemma KeptWithValue(w: World, i: nat, c: Choice)
    requires Acyclic(w) && i < |w.syms| && Acyclic(Choose(w, i, c))
    ensures var v := Choose(w, i, c);
            SameAt(w, v, i) ==> forall j :: 0 <= j < |w.syms| ==>
              SameAt(w, v, j) && Visible(w, j) == Visible(v, j) && RevDep(w, j) == RevDep(v, j)
  {
    var v := Choose(w, i, c);
    if SameAt(w, v, i) {
      hide Visible, RevDep, Value, TextValue, Acyclic;
      forall j | 0 <= j < |w.syms| ensures SameAt(w, v, j) && Visible(w, j) == Visible(v, j) && RevDep(w, j) == RevDep(v, j)
      {
        InputsKept(w, i, c, j);
        if j != i { SameKept(w, i, c, j); }
      }
    }
  }

  /** Counting a text as the user's that was already kept, but did not count, leaves the value alone
      exactly when the symbol is not visible or has that text anyway. */
  lemma CountsSame(w: World, i: nat, text: string)
    requires Acyclic(w) && i < |w.syms| && w.syms[i].kind.Other? && !IsUntyped(w, i) && Acyclic(Choose(w, i, OfText(text)))
    ensures var v := Choose(w, i, OfText(text));
            w.texts[i] == Nothing ==> (SameAt(w, v, i) <==> Visible(w, i) == NO || DefaultText(w, i, 0) == text)
    ensures w.texts[i] == Just(text) ==> Choose(w, i, OfText(text)) == w
  {
    TextComesBack(w, i, text);
    hide Visible, RevDep, DefaultValue, DefaultText, Acyclic;
  }

  /** A visible string symbol without a default, whose kept text does not count, is empty; counted, it has
      that text. */
  const FORGOTTEN: World := World([Sym3(Other, StringType, [Just(Sym(Yes))], Nothing, Nothing, [])], [Nothing], [Nothing], true, [0])

  lemma KeptTextComesAlive(text: string)
    requires text != ""
    ensures Acyclic(FORGOTTEN) && Acyclic(Choose(FORGOTTEN, 0, OfText(text)))
    ensures TextValue(FORGOTTEN, 0) == "" && TextValue(Choose(FORGOTTEN, 0, OfText(text)), 0) == text
  {
    var w := FORGOTTEN;
    assert SymOk(w, 0);
    ChosenAcyclic(w, 0, OfText(text));
    assert PromptValue(w, 0, 0) == NO && ExprValue(w, Sym(Yes), 0) == YES && MaybeValue(w, Just(Sym(Yes)), 0) == YES;
    assert PromptValue(w, 0, 1) == YES && DefaultText(w, 0, 0) == "";
    TextComesBack(w, 0, text);
  }

  // ---- texts that are accepted ----

  predicate IsDigit(c: char) { '0' <= c <= '9' }

  predicate IsHexDigit(c: char) { IsDigit(c) || 'a' <= c <= 'f' || 'A' <= c <= 'F' }

  predicate HasPrefix(s: string) { |s| >= 2 && s[0] == '0' && (s[1] == 'x' || s[1] == 'X') }

  predicate AllDigits(s: string) { forall k :: 0 <= k < |s| ==> IsDigit(s[k]) }

  predicate AllHexDigits(s: string) { forall k :: 0 <= k < |s| ==> IsHexDigit(s[k]) }

  /** sym_string_valid: decimal numbers without leading zeros, and hex digits with or without 0x. */
  predicate StringValid(t: TextType, s: string)
  {
    match t
    case Untyped(_) => false
    case StringType => true
    case IntType =>
      var n := if s != "" && s[0] == '-' then s[1..] else s;
      n != "" && AllDigits(n) && (n[0] == '0' ==> |n| == 1)
    case HexType =>
      var n := if HasPrefix(s) then s[2..] else s;
      n != "" && AllHexDigits(n)
  }

  /** What sym_set_string_value keeps. */
  function Stored(t: TextType, s: string): string
  {
    if t.HexType? && !HasPrefix(s) then "0x" + s else s
  }

  /** What has been stored is accepted again, and stored as it is. */
  lemma StoredStays(t: TextType, s: string)
    requires StringValid(t, s)
    ensures StringValid(t, Stored(t, s)) && Stored(t, Stored(t, s)) == Stored(t, s)
  {
    if t.HexType? && !HasPrefix(s) { assert ("0x" + s)[2..] == s; }
  }

  // ---- the memoised calculation ----

  class Calculator {
    var w: World
    var valid: set<nat>        // symbols with SYMBOL_VALID
    var curr: seq<Tri>         // both halves of the value
    var text: seq<string>
    var kept: seq<Maybe<string>>   // the user's text, which counts if texts has it too
    var visible: seq<Tri>
    var revDep: seq<Tri>
    ghost var busy: set<nat>   // symbols whose calculation has begun and not ended

    ghost predicate Sized()
      reads this
    {
      && Acyclic(w) && |curr| == |text| == |visible| == |revDep| == |kept| == |w.syms|
      && forall i :: 0 <= i < |kept| && w.texts[i].Just? ==> kept[i] == w.texts[i]
    }

    /** What is stored for symbol i is what the definition says; untyped symbols have no
        visibility. */
    ghost predicate Right(i: nat)
      requires Sized() && i < |w.syms|
      reads this
    {
      && curr[i] == Value(w, i) && text[i] == TextValue(w, i)
      && (!IsUntyped(w, i) ==> visible[i] == Visible(w, i) && revDep[i] == RevDep(w, i))
    }

    ghost predicate Valid()
      reads this
    {
      && Sized() && busy <= valid
      && (forall i :: i in valid ==> i < |w.syms|)
      && (forall i {:trigger Right(i)} :: i in valid - busy ==> Right(i))
    }

    /** Every calculation under way is of a symbol at or above the bound. */
    ghost predicate Above(bound: nat)
      requires |w.rank| == |w.syms|
      reads this
    {
      forall i :: i in busy ==> i < |w.rank| && bound <= w.rank[i]
    }

    /** A calculation adds to what is stored and, but for some symbols, changes none of it. */
    twostate predicate Grown(but: set<nat>)
      reads this
    {
      && Valid() && old(Valid()) && w == old(w) && kept == old(kept) && busy == old(busy) && valid >= old(valid)
      && forall i {:trigger i in old(valid)} :: i in old(valid) && i !in but
           ==> curr[i] == old(curr)[i] && text[i] == old(text)[i] && visible[i] == old(visible)[i] && revDep[i] == old(revDep)[i]
    }

    constructor (w: World, kept: seq<Maybe<string>>)
      requires Acyclic(w) && |kept| == |w.syms| && forall i :: 0 <= i < |kept| && w.texts[i].Just? ==> kept[i] == w.texts[i]
      ensures Valid() && this.w == w && this.kept == kept && valid == {} && busy == {}
    {
      this.w, this.kept := w, kept;
      var none: seq<Tri> := seq(|w.syms|, _ => NO);
      valid, curr, visible, revDep, busy := {}, none, none, none, {};
      text := seq(|w.syms|, _ => "");
    }

    /** A symbol's value after sym_calc_value; constants have theirs. */
    method CalcSymbol(s: Symbol, ghost bound: nat) returns (r: Tri)
      requires Valid() && SymFits(w, s, bound) && Above(bound)
      modifies this
      ensures Grown({}) && r == SymValue(w, s, bound)
      decreases bound, 0
    {
      match s {
        case Yes => r := YES;
        case Mod => r := MOD;
        case No => r := NO;
        case Quoted(_) => r := NO;
        case Config(j, _) =>
          CalcValue(j);
          assert Right(j);
          r := curr[j];
      }
    }

    /** sym_calc_value, then sym_get_string_value. */
    method CalcString(s: Symbol, ghost bound: nat) returns (r: string)
      requires Valid() && SymFits(w, s, bound) && Above(bound)
      modifies this
      ensures Grown({}) && r == SymString(w, s, bound)
      decreases bound, 1
    {
      if s.Config? {
        CalcValue(s.id);
        assert Right(s.id);
        r := if s.kind.Other? then text[s.id] else Text(curr[s.id]);
      } else {
        r := ConstText(s);
      }
      hide Value, TextValue;
    }

    /** sym_calc_value, then curr.val. */
    method CalcRaw(s: Symbol, ghost bound: nat) returns (r: string)
      requires Valid() && SymFits(w, s, bound) && Above(bound)
      modifies this
      ensures Grown({}) && r == RawText(w, s, bound)
      decreases bound, 1
    {
      if s.Config? {
        CalcValue(s.id);
        assert Right(s.id);
        r := text[s.id];
      } else {
        r := ConstText(s);
      }
      hide Value, TextValue;
    }

    /** expr_calc_value */
    method CalcExpr(e: Expr, ghost bound: nat) returns (r: Tri)
      requires Valid() && Fits(w, e, bound) && Above(bound)
      modifies this
      ensures Grown({}) && r == ExprValue(w, e, bound)
      decreases bound, 2, e
    {
      hide Right, Acyclic;
      match e {
        case Sym(s) => r := CalcSymbol(s, bound);
        case Not(a) =>
          r := CalcExpr(a, bound);
          r := 2 - r;
        case Bin(op, a, b) =>
          var x := CalcExpr(a, bound);
          var y := CalcExpr(b, bound);
          r := Combine(op, x, y);
        case Equal(s, t) =>
          var x := CalcString(s, bound);
          var y := CalcString(t, bound);
          r := if x == y then YES else NO;
        case Unequal(s, t) =>
          var x := CalcString(s, bound);
          var y := CalcString(t, bound);
          r := if x == y then NO else YES;
      }
    }

    method CalcMaybe(e: Maybe<Expr>, ghost bound: nat) returns (r: Tri)
      requires Valid() && MaybeFits(w, e, bound) && Above(bound)
      modifies this
      ensures Grown({}) && r == MaybeValue(w, e, bound)
      decreases bound, 3
    {
      r := YES;
      if e.Just? { r := CalcExpr(e.value, bound); }
    }

    method CalcPrompts(i: nat) returns (tri: Tri)
      requires Valid() && i < |w.syms| && Above(w.rank[i])
      modifies this
      ensures Grown({}) && tri == PromptValue(w, i, |w.syms[i].prompts|)
      decreases w.rank[i], 4
    {
      hide Right;
      tri := NO;
      var k, prompts := 0, w.syms[i].prompts;
      while k < |prompts|
        invariant k <= |prompts| && Grown({}) && tri == PromptValue(w, i, k)
      {
        assert SymOk(w, i);
        var t := CalcMaybe(prompts[k], w.rank[i]);
        tri := Combine(OrOp, tri, t);
        k := k + 1;
      }
    }

    /** Writes to a symbol whose calculation is under way disturb no other. */
    method SetVisible(i: nat, t: Tri)
      requires Valid() && i in busy
      modifies this`visible
      ensures Grown({i}) && visible == old(visible)[i := t]
    {
      visible := visible[i := t];
      forall j {:trigger Right(j)} | j in valid - busy ensures Right(j) { assert old(Right(j)); }
    }

    method SetRevDep(i: nat, t: Tri)
      requires Valid() && i in busy
      modifies this`revDep
      ensures Grown({i}) && revDep == old(revDep)[i := t]
    {
      revDep := revDep[i := t];
      forall j {:trigger Right(j)} | j in valid - busy ensures Right(j) { assert old(Right(j)); }
    }

    method SetCurr(i: nat, t: Tri, s: string)
      requires Valid() && i in busy
      modifies this`curr, this`text
      ensures Grown({i}) && curr == old(curr)[i := t] && text == old(text)[i := s]
    {
      curr, text := curr[i := t], text[i := s];
      forall j {:trigger Right(j)} | j in valid - busy ensures Right(j) { assert old(Right(j)); }
    }

    /** sym_calc_visibility */
    method CalcVisibility(i: nat)
      requires Valid() && i in busy && Above(w.rank[i])
      modifies this
      ensures Grown({i}) && visible[i] == Visible(w, i) && revDep[i] == RevDep(w, i)
      decreases w.rank[i], 5
    {
      hide Right;
      var tri := CalcPrompts(i);
      SetVisible(i, Rounded(tri, !w.syms[i].kind.Tristate? || !w.modules));
      assert SymOk(w, i);
      // The direct dependency only decides whether a warning is printed.
      var dep := CalcMaybe(w.syms[i].dirDep, w.rank[i]);
      tri := NO;
      if w.syms[i].revDep.Just? { tri := CalcMaybe(w.syms[i].revDep, w.rank[i]); }
      SetRevDep(i, Rounded(tri, IsBoolean(w, i)));
    }

    /** sym_get_default_prop, and the value of what it finds. */
    method CalcDefault(i: nat) returns (r: Tri)
      requires Valid() && i in busy && Above(w.rank[i])
      modifies this
      ensures Grown({}) && r == DefaultValue(w, i, 0)
      decreases w.rank[i], 5
    {
      hide Right;
      var k, defaults := 0, w.syms[i].defaults;
      while k < |defaults|
        invariant k <= |defaults| && Grown({}) && DefaultValue(w, i, 0) == DefaultValue(w, i, k)
      {
        assert SymOk(w, i);
        var vis := CalcMaybe(defaults[k].visible, w.rank[i]);
        if vis != NO {
          r := CalcExpr(defaults[k].value, w.rank[i]);
          r := Combine(AndOp, r, vis);
          return;
        }
        k := k + 1;
      }
      r := NO;
    }

    /** sym_get_default_prop, prop_get_symbol and the text of what they find. */
    method CalcDefaultText(i: nat) returns (r: string)
      requires Valid() && i in busy && Above(w.rank[i])
      modifies this
      ensures Grown({}) && r == DefaultText(w, i, 0)
      decreases w.rank[i], 5
    {
      hide Right;
      var k, defaults := 0, w.syms[i].defaults;
      r := "";
      while k < |defaults|
        invariant k <= |defaults| && Grown({}) && r == "" && DefaultText(w, i, 0) == DefaultText(w, i, k)
      {
        assert SymOk(w, i);
        var vis := CalcMaybe(defaults[k].visible, w.rank[i]);
        if vis != NO {
          if defaults[k].value.Sym? { r := CalcRaw(defaults[k].value.sym, w.rank[i]); }
          return;
        }
        k := k + 1;
      }
    }

    /** What sym_calc_value does for booleans and tristates once visibility is known. */
    method CalcTri(i: nat) returns (val: Tri)
      requires Valid() && i in busy && Above(w.rank[i]) && !w.syms[i].kind.Other?
      requires visible[i] == Visible(w, i) && revDep[i] == RevDep(w, i)
      modifies this
      ensures Grown({}) && val == Value(w, i)
      decreases w.rank[i], 6
    {
      hide Right, Visible, RevDep, DefaultValue;
      if visible[i] != NO && w.users[i].Just? {
        val := Combine(AndOp, w.users[i].value, visible[i]);
      } else {
        val := CalcDefault(i);
      }
      val := Combine(OrOp, val, revDep[i]);
      val := Rounded(val, IsBoolean(w, i));
    }

    /** What sym_calc_value does for strings and numbers. */
    method CalcText(i: nat) returns (val: string)
      requires Valid() && i in busy && Above(w.rank[i]) && w.syms[i].kind.Other? && !IsUntyped(w, i)
      requires visible[i] == Visible(w, i)
      modifies this
      ensures Grown({}) && val == TextValue(w, i)
      decreases w.rank[i], 6
    {
      hide Right, Visible, DefaultText;
      if visible[i] != NO && w.texts[i].Just? {
        val := w.texts[i].value;
      } else {
        val := CalcDefaultText(i);
      }
    }

    /** The part of sym_calc_value that follows the check of the flag. */
    method CalcBusy(i: nat)
      requires Valid() && i in busy && Above(w.rank[i])
      modifies this
      ensures Grown({i}) && Right(i)
      decreases w.rank[i], 7
    {
      if IsUntyped(w, i) {
        SetCurr(i, NO, w.syms[i].textType.name);
        return;
      }
      CalcVisibility(i);
      if w.syms[i].kind.Other? {
        SetCurr(i, NO, "");
        var t := CalcText(i);
        SetCurr(i, NO, t);
      } else {
        SetCurr(i, NO, "n");
        var val := CalcTri(i);
        SetCurr(i, val, "n");
      }
      hide Visible, RevDep, DefaultValue, DefaultText, Acyclic;
    }

    method Begin(i: nat)
      requires Valid() && i < |w.syms| && i !in valid
      modifies this`valid, this`busy
      ensures Valid() && valid == old(valid) + {i} && busy == old(busy) + {i}
    {
      valid, busy := valid + {i}, busy + {i};
      forall j {:trigger Right(j)} | j in valid - busy ensures Right(j) { assert old(Right(j)); }
    }

    /** sym_calc_value: after it the symbol's stored value is its value by the definition, and
        nothing that was valid has changed. */
    method CalcValue(i: nat)
      requires Valid() && i < |w.syms| && Above(w.rank[i] + 1)
      modifies this
      ensures Grown({}) && i in valid - busy && Right(i)
      decreases w.rank[i], 8
    {
      if i in valid {
        return;
      }
      Begin(i);
      CalcBusy(i);
      label done:
      busy := busy - {i};
      forall j {:trigger Right(j)} | j in valid - busy ensures Right(j) { assert old@done(Right(j)); }
    }

    // ---- setting a value ----

    /** sym_tristate_within_range */
    predicate WithinRange(i: nat, val: Tri)
      requires Valid() && i < |w.syms|
      reads this
    {
      && visible[i] != NO && !w.syms[i].kind.Other? && !(IsBoolean(w, i) && val == MOD)
      && visible[i] > revDep[i] && revDep[i] <= val <= visible[i]
    }

    lemma AcceptedExactly(i: nat, val: Tri)
      requires Valid() && busy == {} && i in valid && !w.syms[i].kind.Other? && Acyclic(Choose(w, i, OfTri(val)))
      ensures curr[i] == val || WithinRange(i, val) <==>
                val == Value(w, i) || (Value(Choose(w, i, OfTri(val)), i) == val && Visible(w, i) > RevDep(w, i))
    {
      assert Right(i);
      if Visible(w, i) > RevDep(w, i) { ChangeComesBack(w, i, val); }
      hide Visible, RevDep, Value, Acyclic, Choose;
    }

    /** sym_set_tristate_value, which is called for booleans and tristates: a change is accepted
        exactly if it would come back as the symbol's value when that is calculated again, and more is
        visible than selected. A set to the current
        value leaves the flags alone: what is stored stays right exactly when the symbol's value
        does. */
    method SetTristateValue(i: nat, val: Tri) returns (ok: bool)
      requires Valid() && busy == {} && i in valid && !w.syms[i].kind.Other?
      modifies this
      ensures ok == (val == old(curr)[i] || old(WithinRange(i, val)))
      ensures Acyclic(Choose(old(w), i, OfTri(val)))
      ensures ok <==> val == Value(old(w), i) || (Value(Choose(old(w), i, OfTri(val)), i) == val && Visible(old(w), i) > RevDep(old(w), i))
      ensures !ok ==> w == old(w) && valid == old(valid) && Valid()
      ensures ok ==> w == Choose(old(w), i, OfTri(val)) && Acyclic(w)
      ensures ok && val != old(curr)[i] ==> Valid() && valid == {} && Value(w, i) == val
      ensures ok && val == old(curr)[i] ==> valid == old(valid) && curr == old(curr)
      ensures kept == old(kept)
      ensures ok && val == old(curr)[i] ==> (Valid() <==> Value(w, i) == val)
      ensures ok && val == old(curr)[i] ==>
        (Valid() <==> old(visible)[i] == NO || val <= old(visible)[i] || val == old(revDep)[i])
    {
      assert Right(i);
      ChosenAcyclic(w, i, OfTri(val));
      AcceptedExactly(i, val);
      if curr[i] != val && !WithinRange(i, val) {
        return false;
      }
      if curr[i] != val {
        ChoiceComesBack(w, i, val);
        valid := {};
      } else {
        KeptWithValue(w, i, OfTri(val));
        SameChoiceKeeps(w, i);
      }
      w := Choose(w, i, OfTri(val));
      if val == old(curr)[i] {
        if Value(w, i) == val {
          forall j {:trigger Right(j)} | j in valid - busy ensures Right(j) { assert old(Right(j)); }
        } else {
          assert !Right(i);
        }
      }
      return true;
    }

    /** sym_set_string_value for strings and for numbers without a range: what is accepted is
        stored, and it comes back exactly when the symbol is visible or would have it anyway. A text
        that is kept already is only made to count: if it did not and the symbol has been calculated,
        what is stored stays right exactly when the symbol is not visible or has the text anyway. */
    method SetStringValue(i: nat, newval: string) returns (ok: bool)
      requires Valid() && busy == {} && i < |w.syms| && w.syms[i].kind.Other?
      modifies this
      ensures Sized() && ok == StringValid(old(w).syms[i].textType, newval)
      ensures !ok ==> Valid() && w == old(w) && kept == old(kept) && valid == old(valid)
      ensures var own := Stored(old(w).syms[i].textType, newval);
              && (ok ==> w == Choose(old(w), i, OfText(own)) && kept == old(kept)[i := Just(own)])
              && (ok ==> (TextValue(w, i) == own <==> (Visible(w, i) != NO || DefaultText(w, i, 0) == own)))
              && (ok && !(own == newval && old(kept)[i] == Just(newval)) ==> Valid() && valid == {})
              && (ok && own == newval && old(kept)[i] == Just(newval) ==> valid == old(valid))
              && (ok && (old(w).texts[i].Just? || Visible(w, i) == NO || DefaultText(w, i, 0) == own) ==> Valid())
              && (ok && i in valid && Valid() ==> old(w).texts[i].Just? || Visible(w, i) == NO || DefaultText(w, i, 0) == own)
      ensures curr == old(curr) && text == old(text) && visible == old(visible) && revDep == old(revDep)
    {
      var t := w.syms[i].textType;
      if !StringValid(t, newval) {
        return false;
      }
      var own := Stored(t, newval);
      ChosenAcyclic(w, i, OfText(own));
      TextComesBack(w, i, own);
      if own == newval && kept[i] == Just(newval) {
        CountsSame(w, i, own);
        KeptWithValue(w, i, OfText(own));
        w := Choose(w, i, OfText(own));
        if SameAt(old(w), w, i) {
          forall j {:trigger Right(j)} | j in valid - busy ensures Right(j) { assert old(Right(j)); }
        } else if i in valid {
          assert old(Right(i)) && !Right(i);
        }
        return true;
      }
      w, kept, valid := Choose(w, i, OfText(own)), kept[i := Just(own)], {};
      return true;
    }
  }

  // ---- a graph that passes the dependency check can be calculated ----

  /** The references that sym_check_deps follows; every symbol's own entry is a property whose
      condition is the direct dependency. */
  function DefOf(d: Sym3): Def
  {
    Def(d.revDep,
        [Property(false, false, d.dirDep, Nothing)]
        + seq(|d.prompts|, k requires 0 <= k < |d.prompts| => Property(false, false, d.prompts[k], Nothing))
        + seq(|d.defaults|, k requires 0 <= k < |d.defaults| => Property(false, true, d.defaults[k].visible, Just(d.defaults[k].value))))
  }

  function DefsOf(syms: seq<Sym3>): seq<Def>
  {
    seq(|syms|, i requires 0 <= i < |syms| => DefOf(syms[i]))
  }

  predicate KindOk(syms: seq<Sym3>, s: Symbol)
  {
    s.Config? ==> s.id < |syms| && s.kind == syms[s.id].kind
  }

  predicate KindsOk(syms: seq<Sym3>, e: Expr)
  {
    match e
    case Sym(s) => KindOk(syms, s)
    case Not(a) => KindsOk(syms, a)
    case Bin(_, l, r) => KindsOk(syms, l) && KindsOk(syms, r)
    case Equal(s, t) => KindOk(syms, s) && KindOk(syms, t)
    case Unequal(s, t) => KindOk(syms, s) && KindOk(syms, t)
  }

  predicate MaybeKindsOk(syms: seq<Sym3>, e: Maybe<Expr>) { e.Just? ==> KindsOk(syms, e.value) }

  /** The expressions at a symbol name symbols there are, with the kind they have. */
  ghost predicate Named(syms: seq<Sym3>, i: nat)
    requires i < |syms|
  {
    var d := syms[i];
    && MaybeKindsOk(syms, d.dirDep) && MaybeKindsOk(syms, d.revDep)
    && (forall k :: 0 <= k < |d.prompts| ==> MaybeKindsOk(syms, d.prompts[k]))
    && (forall k :: 0 <= k < |d.defaults| ==> MaybeKindsOk(syms, d.defaults[k].visible) && KindsOk(syms, d.defaults[k].value))
  }

  ghost predicate Lower(w: World, refs: set<nat>, bound: nat)
  {
    forall j :: j in refs ==> j < |w.rank| && w.rank[j] < bound
  }

  lemma {:induction false} LowerFits(w: World, e: Expr, bound: nat)
    requires |w.rank| == |w.syms| && KindsOk(w.syms, e) && Lower(w, Refs(e), bound)
    ensures Fits(w, e, bound)
  {
    match e {
      case Not(a) => LowerFits(w, a, bound);
      case Bin(_, l, r) =>
        LowerFits(w, l, bound);
        LowerFits(w, r, bound);
      case Sym(s) => assert s.Config? ==> s.id in Refs(e);
      case Equal(s, t) => assert (s.Config? ==> s.id in Refs(e)) && (t.Config? ==> t.id in Refs(e));
      case Unequal(s, t) => assert (s.Config? ==> s.id in Refs(e)) && (t.Config? ==> t.id in Refs(e));
    }
  }

  lemma MaybeLowerFits(w: World, e: Maybe<Expr>, bound: nat)
    requires |w.rank| == |w.syms| && MaybeKindsOk(w.syms, e) && Lower(w, MaybeRefs(e), bound)
    ensures MaybeFits(w, e, bound)
  {
    if e.Just? { LowerFits(w, e.value, bound); }
  }

  lemma PropOfDef(d: Sym3, n: nat)
    requires n < |DefOf(d).props|
    ensures PropRefs(DefOf(d).props[n]) <= DefRefs(DefOf(d))
  {
    PropsRefsAt(DefOf(d).props, n);
    hide DefOf, PropRefs, PropsRefs;
  }

  lemma RefsOfPrompt(d: Sym3, k: nat)
    requires k < |d.prompts|
    ensures MaybeRefs(d.prompts[k]) <= DefRefs(DefOf(d))
  {
    PropOfDef(d, 1 + k);
    assert DefOf(d).props[1 + k] == Property(false, false, d.prompts[k], Nothing);
    hide DefRefs;
  }

  lemma RefsOfDefault(d: Sym3, k: nat)
    requires k < |d.defaults|
    ensures MaybeRefs(d.defaults[k].visible) + Refs(d.defaults[k].value) <= DefRefs(DefOf(d))
  {
    PropOfDef(d, 1 + |d.prompts| + k);
    assert DefOf(d).props[1 + |d.prompts| + k] == Property(false, true, d.defaults[k].visible, Just(d.defaults[k].value));
    hide DefRefs;
  }

  lemma RefsOfDef(d: Sym3)
    ensures MaybeRefs(d.revDep) + MaybeRefs(d.dirDep) <= DefRefs(DefOf(d))
    ensures forall k :: 0 <= k < |d.prompts| ==> MaybeRefs(d.prompts[k]) <= DefRefs(DefOf(d))
    ensures forall k :: 0 <= k < |d.defaults| ==> MaybeRefs(d.defaults[k].visible) + Refs(d.defaults[k].value) <= DefRefs(DefOf(d))
  {
    PropOfDef(d, 0);
    assert PropRefs(DefOf(d).props[0]) == MaybeRefs(d.dirDep);
    forall k | 0 <= k < |d.prompts| ensures MaybeRefs(d.prompts[k]) <= DefRefs(DefOf(d)) { RefsOfPrompt(d, k); }
    forall k | 0 <= k < |d.defaults| ensures MaybeRefs(d.defaults[k].visible) + Refs(d.defaults[k].value) <= DefRefs(DefOf(d))
    {
      RefsOfDefault(d, k);
    }
    assert MaybeRefs(DefOf(d).revDep) <= DefRefs(DefOf(d));
  }

  lemma LowerIsOk(w: World, i: nat)
    requires |w.rank| == |w.syms| && i < |w.syms| && Named(w.syms, i) && Lower(w, DefRefs(DefOf(w.syms[i])), w.rank[i])
    ensures SymOk(w, i)
  {
    var d, b := w.syms[i], w.rank[i];
    RefsOfDef(d);
    hide DefOf, DefRefs;
    MaybeLowerFits(w, d.dirDep, b);
    MaybeLowerFits(w, d.revDep, b);
    forall k | 0 <= k < |d.prompts| ensures MaybeFits(w, d.prompts[k], b) { MaybeLowerFits(w, d.prompts[k], b); }
    forall k | 0 <= k < |d.defaults| ensures MaybeFits(w, d.defaults[k].visible, b) && Fits(w, d.defaults[k].value, b)
    {
      MaybeLowerFits(w, d.defaults[k].visible, b);
      LowerFits(w, d.defaults[k].value, b);
    }
  }

  lemma SortedRanks(w: World, order: seq<nat>)
    requires |w.rank| == |w.syms| == |w.users| == |w.texts| && Sorted(DefsOf(w.syms), order) && (forall i :: 0 <= i < |w.syms| ==> i in order)
    requires forall i :: 0 <= i < |w.syms| ==> FirstAt(order, i, w.rank[i]) && Named(w.syms, i)
    ensures Acyclic(w)
  {
    var defs := DefsOf(w.syms);
    forall i | 0 <= i < |w.syms| ensures SymOk(w, i)
    {
      forall j | j in DefRefs(DefOf(w.syms[i])) ensures j < |w.rank| && w.rank[j] < w.rank[i]
      {
        assert FirstAt(order, i, w.rank[i]) && Edge(defs, order[w.rank[i]], j);
        var x :| 0 <= x < w.rank[i] && order[..w.rank[i]][x] == j;
        assert order[x] == j && FirstAt(order, j, w.rank[j]);
      }
      LowerIsOk(w, i);
    }
  }

  lemma FirstPlaces(n: nat, order: seq<nat>) returns (rank: seq<nat>)
    requires forall i :: 0 <= i < n ==> i in order
    ensures |rank| == n && forall i :: 0 <= i < n ==> FirstAt(order, i, rank[i])
  {
    rank := [];
    for i := 0 to n
      invariant |rank| == i && forall j :: 0 <= j < i ==> FirstAt(order, j, rank[j])
    {
      assert i in order;
      var x: nat :| x < |order| && order[x] == i;
      var m := HasFirst(order, i, x);
      rank := rank + [m];
    }
  }

  /** When the check over all symbols prints nothing, every symbol can be calculated: there is an
      order in which each comes after those it looks at. */
  method CheckWorld(syms: seq<Sym3>, users: seq<Maybe<Tri>>, texts: seq<Maybe<string>>, modules: bool)
    returns (silent: bool, ghost w: World)
    requires |users| == |texts| == |syms| && (forall i :: 0 <= i < |syms| ==> Named(syms, i)) && Closed(DefsOf(syms))
    ensures silent <==> !HasCycle(DefsOf(syms))
    ensures silent ==> Acyclic(w) && w.syms == syms && w.users == users && w.texts == texts && w.modules == modules
  {
    hide HasCycle, Named;
    var c, errors := CheckAll(DefsOf(syms));
    silent := c.reports == 0;
    w := World(syms, users, texts, modules, []);
    if silent {
      ghost var rank := FirstPlaces(|syms|, c.order);
      w := World(syms, users, texts, modules, rank);
      SortedRanks(w, c.order);
    }
  }
}
