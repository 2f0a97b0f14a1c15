/** What a symbol's value is, said of the values of the expressions in its definition: conditions are
    evaluated under the valuation that all symbols' values make up. */
module KconfigLaws {
  import opened KconfigLogic
  import opened KconfigValue

  /** A condition; a missing one holds. */
  ghost function Holds(w: World, e: Maybe<Expr>): Tri
    requires Acyclic(w)
  {
    if e.Just? then Eval(e.value, ValuationOf(w)) else YES
  }

  lemma HoldsIs(w: World, e: Maybe<Expr>, b: nat)
    requires Acyclic(w) && MaybeFits(w, e, b)
    ensures MaybeValue(w, e, b) == Holds(w, e)
  {
    if e.Just? { ExprAgrees(w, e.value, b); }
    hide Acyclic, Fits, ExprValue, ValuationOf, Eval;
  }

  /** What others select. */
  ghost function Selected(w: World, i: nat): Tri
    requires Acyclic(w) && i < |w.syms|
  {
    if w.syms[i].revDep.Just? then Holds(w, w.syms[i].revDep) else NO
  }

  function Larger(a: Tri, b: Tri): Tri { if a > b then a else b }

  function Smaller(a: Tri, b: Tri): Tri { if a < b then a else b }

  /** t is the best that the prompts of i offer. */
  ghost predicate Offers(w: World, i: nat, t: Tri)
    requires Acyclic(w) && i < |w.syms|
  {
    var ps := w.syms[i].prompts;
    && (forall k :: 0 <= k < |ps| ==> Holds(w, ps[k]) <= t)
    && (t != NO ==> exists k :: 0 <= k < |ps| && Holds(w, ps[k]) == t)
  }

  /** Default k is the first whose condition is not no. */
  ghost predicate Applies(w: World, i: nat, k: int)
    requires Acyclic(w) && i < |w.syms|
  {
    var ds := w.syms[i].defaults;
    0 <= k < |ds| && Holds(w, ds[k].visible) != NO && forall j :: 0 <= j < k ==> Holds(w, ds[j].visible) == NO
  }

  ghost predicate NoneApplies(w: World, i: nat)
    requires Acyclic(w) && i < |w.syms|
  {
    forall k :: 0 <= k < |w.syms[i].defaults| ==> Holds(w, w.syms[i].defaults[k].visible) == NO
  }

  lemma {:induction false} OffersIs(w: World, i: nat, n: nat)
    requires Acyclic(w) && i < |w.syms| && n <= |w.syms[i].prompts|
    ensures forall k :: 0 <= k < n ==> Holds(w, w.syms[i].prompts[k]) <= PromptValue(w, i, n)
    ensures PromptValue(w, i, n) != NO ==> exists k :: 0 <= k < n && Holds(w, w.syms[i].prompts[k]) == PromptValue(w, i, n)
    decreases n
  {
    if n > 0 {
      OffersIs(w, i, n - 1);
      assert SymOk(w, i);
      HoldsIs(w, w.syms[i].prompts[n - 1], w.rank[i]);
    }
    hide Acyclic, Holds, MaybeValue;
  }

  lemma OffersOne(w: World, i: nat, t: Tri)
    requires Acyclic(w) && i < |w.syms| && Offers(w, i, t)
    ensures PromptValue(w, i, |w.syms[i].prompts|) == t
  {
    OffersIs(w, i, |w.syms[i].prompts|);
    hide Acyclic, Holds, PromptValue;
  }

  lemma SelectedIs(w: World, i: nat)
    requires Acyclic(w) && i < |w.syms|
    ensures RevDep(w, i) == if w.syms[i].revDep.Nothing? then NO else Rounded(Selected(w, i), IsBoolean(w, i))
  {
    assert SymOk(w, i);
    HoldsIs(w, w.syms[i].revDep, w.rank[i]);
    hide Acyclic, Holds, MaybeValue;
  }

  lemma {:induction false} AppliesIs(w: World, i: nat, k: int, j: nat)
    requires Acyclic(w) && i < |w.syms| && Applies(w, i, k) && j <= k
    ensures DefaultValue(w, i, j) == Smaller(Eval(w.syms[i].defaults[k].value, ValuationOf(w)), Holds(w, w.syms[i].defaults[k].visible))
    decreases k - j
  {
    assert SymOk(w, i);
    HoldsIs(w, w.syms[i].defaults[j].visible, w.rank[i]);
    if j < k {
      AppliesIs(w, i, k, j + 1);
    } else {
      ExprAgrees(w, w.syms[i].defaults[k].value, w.rank[i]);
    }
    hide Acyclic, Holds, MaybeValue, ExprValue, Eval, ValuationOf;
  }

  lemma {:induction false} NoneAppliesIs(w: World, i: nat, j: nat)
    requires Acyclic(w) && i < |w.syms| && NoneApplies(w, i) && j <= |w.syms[i].defaults|
    ensures DefaultValue(w, i, j) == NO
    decreases |w.syms[i].defaults| - j
  {
    if j < |w.syms[i].defaults| {
      assert SymOk(w, i);
      HoldsIs(w, w.syms[i].defaults[j].visible, w.rank[i]);
      NoneAppliesIs(w, i, j + 1);
    }
    hide Acyclic, Holds, MaybeValue, ExprValue;
  }

  // ---- the value of a boolean or tristate, case by case ----

  /** The user's choice, as far as the best prompt offers it, or what others select if that is more. */
  lemma ChoiceCounts(w: World, i: nat, u: Tri, t: Tri)
    requires Acyclic(w) && i < |w.syms| && !w.syms[i].kind.Other? && w.users[i] == Just(u) && Offers(w, i, t) && t != NO
    ensures Value(w, i) == Rounded(Larger(Smaller(u, Rounded(t, IsBoolean(w, i))), Selected(w, i)), IsBoolean(w, i))
  {
    OffersOne(w, i, t);
    SelectedIs(w, i);
    hide Acyclic, Offers, Holds, PromptValue, RevDep;
  }

  /** Without a choice, or without a prompt for it, the first default that applies, as far as its
      condition holds. */
  lemma DefaultCounts(w: World, i: nat, t: Tri, k: int)
    requires Acyclic(w) && i < |w.syms| && !w.syms[i].kind.Other? && Offers(w, i, t) && (w.users[i].Nothing? || t == NO) && Applies(w, i, k)
    ensures var d := w.syms[i].defaults[k];
            Value(w, i) == Rounded(Larger(Smaller(Eval(d.value, ValuationOf(w)), Holds(w, d.visible)), Selected(w, i)), IsBoolean(w, i))
  {
    OffersOne(w, i, t);
    SelectedIs(w, i);
    AppliesIs(w, i, k, 0);
    hide Acyclic, Offers, Holds, PromptValue, RevDep, DefaultValue, Eval, ValuationOf;
  }

  /** With no default either, what others select. */
  lemma SelectCounts(w: World, i: nat, t: Tri)
    requires Acyclic(w) && i < |w.syms| && !w.syms[i].kind.Other? && Offers(w, i, t) && (w.users[i].Nothing? || t == NO) && NoneApplies(w, i)
    ensures Value(w, i) == Rounded(Selected(w, i), IsBoolean(w, i))
  {
    OffersOne(w, i, t);
    SelectedIs(w, i);
    NoneAppliesIs(w, i, 0);
    hide Acyclic, Offers, Holds, PromptValue, RevDep, DefaultValue;
  }

  /** One of the three always is the case. */
  lemma SomeCase(w: World, i: nat) returns (t: Tri, k: int)
    requires Acyclic(w) && i < |w.syms|
    ensures Offers(w, i, t) && (Applies(w, i, k) || NoneApplies(w, i))
  {
    t := PromptValue(w, i, |w.syms[i].prompts|);
    OffersIs(w, i, |w.syms[i].prompts|);
    hide Acyclic, Holds, PromptValue;
    var ds := w.syms[i].defaults;
    k := 0;
    while k < |ds| && Holds(w, ds[k].visible) == NO
      invariant 0 <= k <= |ds| && forall j :: 0 <= j < k ==> Holds(w, ds[j].visible) == NO
    {
      k := k + 1;
    }
  }

  // ---- the same for strings and numbers ----

  ghost predicate IsText(w: World, i: nat)
    requires i < |w.syms|
  {
    w.syms[i].kind.Other? && !IsUntyped(w, i)
  }

  /** The user's text while there is a prompt for it. */
  lemma TextChoiceCounts(w: World, i: nat, text: string, t: Tri)
    requires Acyclic(w) && i < |w.syms| && IsText(w, i) && w.texts[i] == Just(text) && Offers(w, i, t) && t != NO
    ensures TextValue(w, i) == text
  {
    OffersOne(w, i, t);
    hide Acyclic, Offers, Holds, PromptValue;
  }

  /** The text of the symbol or of the constant that the default is, and nothing for an expression. */
  lemma TextDefaultCounts(w: World, i: nat, t: Tri, k: int)
    requires Acyclic(w) && i < |w.syms| && IsText(w, i) && Offers(w, i, t) && (w.texts[i].Nothing? || t == NO) && Applies(w, i, k)
    ensures var e := w.syms[i].defaults[k].value;
            && (e.Sym? && e.sym.Config? ==> e.sym.id < |w.syms| && TextValue(w, i) == TextValue(w, e.sym.id))
            && (e.Sym? && !e.sym.Config? ==> TextValue(w, i) == ConstText(e.sym))
            && (!e.Sym? ==> TextValue(w, i) == "")
  {
    OffersOne(w, i, t);
    TextAppliesIs(w, i, k, 0);
    hide Acyclic, Offers, Holds, PromptValue, DefaultText;
  }

  /** With no default either, nothing. */
  lemma TextIsEmpty(w: World, i: nat, t: Tri)
    requires Acyclic(w) && i < |w.syms| && IsText(w, i) && Offers(w, i, t) && (w.texts[i].Nothing? || t == NO) && NoneApplies(w, i)
    ensures TextValue(w, i) == ""
  {
    OffersOne(w, i, t);
    NoTextAppliesIs(w, i, 0);
    hide Acyclic, Offers, Holds, PromptValue, DefaultText;
  }

  lemma {:induction false} TextAppliesIs(w: World, i: nat, k: int, j: nat)
    requires Acyclic(w) && i < |w.syms| && Applies(w, i, k) && j <= k
    ensures var e := w.syms[i].defaults[k].value;
            && SymOk(w, i) && (e.Sym? ==> SymFits(w, e.sym, w.rank[i]))
            && DefaultText(w, i, j) == if e.Sym? then RawText(w, e.sym, w.rank[i]) else ""
    decreases k - j
  {
    assert SymOk(w, i);
    HoldsIs(w, w.syms[i].defaults[j].visible, w.rank[i]);
    if j < k { TextAppliesIs(w, i, k, j + 1); }
    hide Acyclic, Holds, MaybeValue, RawText;
  }

  lemma {:induction false} NoTextAppliesIs(w: World, i: nat, j: nat)
    requires Acyclic(w) && i < |w.syms| && NoneApplies(w, i) && j <= |w.syms[i].defaults|
    ensures DefaultText(w, i, j) == ""
    decreases |w.syms[i].defaults| - j
  {
    if j < |w.syms[i].defaults| {
      assert SymOk(w, i);
      HoldsIs(w, w.syms[i].defaults[j].visible, w.rank[i]);
      NoTextAppliesIs(w, i, j + 1);
    }
    hide Acyclic, Holds, MaybeValue, RawText;
  }

  // ---- what dependencies are for ----

  /** The prompts and the defaults of i hold no more than its direct dependency. */
  ghost predicate Depends(w: World, i: nat)
    requires Acyclic(w) && i < |w.syms|
  {
    var d := w.syms[i];
    && (forall k :: 0 <= k < |d.prompts| ==> Holds(w, d.prompts[k]) <= Holds(w, d.dirDep))
    && (forall k :: 0 <= k < |d.defaults| ==> Holds(w, d.defaults[k].visible) <= Holds(w, d.dirDep))
  }

  /** No symbol is more than what it depends on, unless others select it. */
  lemma DependencyLimits(w: World, i: nat)
    requires Acyclic(w) && i < |w.syms| && !w.syms[i].kind.Other? && Depends(w, i)
    ensures Value(w, i) <= Rounded(Larger(Holds(w, w.syms[i].dirDep), Selected(w, i)), IsBoolean(w, i))
  {
    var t, k := SomeCase(w, i);
    hide Acyclic, Value, Eval, ValuationOf, Selected;
    assert t <= Holds(w, w.syms[i].dirDep);
    if w.users[i].Just? && t != NO {
      ChoiceCounts(w, i, w.users[i].value, t);
    } else if Applies(w, i, k) {
      DefaultCounts(w, i, t, k);
    } else {
      SelectCounts(w, i, t);
    }
    hide Holds;
  }

  /** FOO, a tristate without a prompt, is y by default if BAR; BAR is m. */
  const FOO_IF_BAR: World :=
    World([Sym3(Tristate, StringType, [], Nothing, Nothing, [Default(Just(Sym(BAR)), Sym(Yes))]),
           Sym3(Tristate, StringType, [Nothing], Nothing, Nothing, [])],
          [Nothing, Just(MOD)], [Nothing, Nothing], true, [1, 0])

  const BAR: Symbol := Config(1, Tristate)

  lemma FooIsMod()
    ensures Acyclic(FOO_IF_BAR) && Value(FOO_IF_BAR, 1) == MOD && Value(FOO_IF_BAR, 0) == MOD
  {
    var w := FOO_IF_BAR;
    FooFits();
    ChoiceCounts(w, 1, MOD, YES);
    assert Selected(w, 1) == NO && Selected(w, 0) == NO;
    hide Acyclic, Value;
    assert Eval(Sym(BAR), ValuationOf(w)) == Value(w, 1) == MOD;
    DefaultCounts(w, 0, NO, 0);
  }

  lemma FooFits()
    ensures Acyclic(FOO_IF_BAR)
    ensures Offers(FOO_IF_BAR, 1, YES) && Offers(FOO_IF_BAR, 0, NO)
  {
    var w := FOO_IF_BAR;
    assert SymOk(w, 0) && SymOk(w, 1);
    assert Holds(w, w.syms[1].prompts[0]) == YES;
  }

  // ---- texts that numbers accept ----

  function Digit(d: nat): char
    requires d < 10
  {
    ('0' as int + d) as char
  }

  function Decimal(n: nat): string
  {
    if n < 10 then [Digit(n)] else Decimal(n / 10) + [Digit(n % 10)]
  }

  lemma {:induction false} DecimalIsCanonical(n: nat)
    ensures Decimal(n) != "" && AllDigits(Decimal(n)) && (Decimal(n)[0] == '0' <==> n == 0)
    ensures n == 0 ==> |Decimal(n)| == 1
  {
    if n >= 10 { DecimalIsCanonical(n / 10); }
  }

  lemma {:induction false} CanonicalIsDecimal(s: string) returns (n: nat)
    requires s != "" && AllDigits(s) && (s[0] == '0' ==> |s| == 1)
    ensures s == Decimal(n)
    decreases |s|
  {
    var last := |s| - 1;
    var d: nat := s[last] as int - '0' as int;
    if last == 0 {
      n := d;
    } else {
      var m := CanonicalIsDecimal(s[..last]);
      DecimalIsCanonical(m);
      n := 10 * m + d;
      assert n / 10 == m && n % 10 == d && s == s[..last] + [s[last]];
    }
  }

  /** A symbol of type int accepts the decimal numbers as they are printed, with or without a minus. */
  lemma IntTexts(s: string)
    ensures StringValid(IntType, s) <==> exists n: nat :: s == Decimal(n) || s == "-" + Decimal(n)
  {
    if StringValid(IntType, s) {
      var n := CanonicalIsDecimal(if s[0] == '-' then s[1..] else s);
      assert s == Decimal(n) || s == "-" + Decimal(n);
    }
    forall n: nat | s == Decimal(n) || s == "-" + Decimal(n) ensures StringValid(IntType, s)
    {
      DecimalIsCanonical(n);
      if s == "-" + Decimal(n) { assert s[1..] == Decimal(n); } else { assert IsDigit(s[0]); }
    }
  }
}
