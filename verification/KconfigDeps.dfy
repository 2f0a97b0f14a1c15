/** The search for recursive dependencies among symbols that belong to no choice. */
module KconfigDeps {
  import opened KconfigLogic

  /** A property's condition, and the value of a default. Select and choice properties are skipped. */
  datatype Property = Property(skipped: bool, isDefault: bool, visible: Maybe<Expr>, value: Maybe<Expr>)

  datatype Def = Def(revDep: Maybe<Expr>, props: seq<Property>)

  // ---- the dependency graph ----

  function SymRefs(s: Symbol): set<nat> { if s.Config? then {s.id} else {} }

  function Refs(e: Expr): set<nat>
  {
    match e
    case Sym(s) => SymRefs(s)
    case Not(a) => Refs(a)
    case Bin(_, l, r) => Refs(l) + Refs(r)
    case Equal(s, t) => SymRefs(s) + SymRefs(t)
    case Unequal(s, t) => SymRefs(s) + SymRefs(t)
  }

  function MaybeRefs(e: Maybe<Expr>): set<nat> { if e.Just? then Refs(e.value) else {} }

  function PropRefs(p: Property): set<nat>
  {
    if p.skipped then {} else MaybeRefs(p.visible) + if p.isDefault then MaybeRefs(p.value) else {}
  }

  function PropsRefs(props: seq<Property>): set<nat>
  {
    if props == [] then {} else PropsRefs(props[..|props| - 1]) + PropRefs(props[|props| - 1])
  }

  /** The symbols whose values this one's value looks at. */
  function DefRefs(d: Def): set<nat> { MaybeRefs(d.revDep) + PropsRefs(d.props) }

  ghost predicate Edge(defs: seq<Def>, i: nat, j: nat)
  {
    i < |defs| && j in DefRefs(defs[i])
  }

  ghost predicate Closed(defs: seq<Def>)
  {
    forall i, j :: 0 <= i < |defs| && j in DefRefs(defs[i]) ==> j < |defs|
  }

  lemma {:induction false} PropsRefsAt(props: seq<Property>, k: nat)
    requires k < |props|
    ensures PropRefs(props[k]) <= PropsRefs(props)
    ensures PropsRefs(props[..k + 1]) == PropsRefs(props[..k]) + PropRefs(props[k])
    decreases |props|
  {
    assert props[..k + 1][..k] == props[..k];
    if k < |props| - 1 {
      PropsRefsAt(props[..|props| - 1], k);
    }
  }

  ghost predicate IsWalk(defs: seq<Def>, p: seq<nat>)
  {
    forall k :: 0 < k < |p| ==> Edge(defs, p[k - 1], p[k])
  }

  ghost predicate IsCycle(defs: seq<Def>, p: seq<nat>)
  {
    |p| >= 2 && p[0] == p[|p| - 1] && IsWalk(defs, p)
  }

  ghost predicate HasCycle(defs: seq<Def>)
  {
    exists p :: IsCycle(defs, p)
  }

  /** Every dependency of a listed symbol is listed before it. */
  ghost predicate Sorted(defs: seq<Def>, order: seq<nat>)
  {
    && (forall k :: 0 <= k < |order| ==> order[k] < |defs|)
    && (forall k, j :: 0 <= k < |order| && Edge(defs, order[k], j) ==> j in order[..k])
  }

  lemma {:induction false} WalkDescends(defs: seq<Def>, order: seq<nat>, p: seq<nat>, k: nat)
    requires Sorted(defs, order) && IsWalk(defs, p) && |p| >= 2 && k < |order| && order[k] == p[0]
    ensures exists m :: 0 <= m < k && order[m] == p[|p| - 1]
    decreases |p|
  {
    assert Edge(defs, p[0], p[1]);
    var m :| 0 <= m < k && order[..k][m] == p[1];
    if |p| > 2 {
      assert forall j :: 0 < j < |p[1..]| ==> Edge(defs, p[1..][j - 1], p[1..][j]) by {
        forall j | 0 < j < |p[1..]| ensures Edge(defs, p[1..][j - 1], p[1..][j]) { assert Edge(defs, p[j + 1 - 1], p[j + 1]); }
      }
      WalkDescends(defs, order, p[1..], m);
    }
  }

  ghost predicate FirstAt(order: seq<nat>, i: nat, k: nat)
  {
    k < |order| && order[k] == i && forall m :: 0 <= m < k ==> order[m] != i
  }

  lemma {:induction false} HasFirst(order: seq<nat>, i: nat, k: nat) returns (m: nat)
    requires k < |order| && order[k] == i
    ensures FirstAt(order, i, m)
    decreases k
  {
    if x :| 0 <= x < k && order[x] == i {
      m := HasFirst(order, i, x);
    } else {
      m := k;
    }
  }

  /** A graph whose symbols can all be sorted has no cycle. */
  lemma SortedHasNoCycle(defs: seq<Def>, order: seq<nat>)
    requires Sorted(defs, order) && forall i :: 0 <= i < |defs| ==> i in order
    ensures !HasCycle(defs)
  {
    forall p ensures !IsCycle(defs, p)
    {
      if IsCycle(defs, p) {
        assert Edge(defs, p[0], p[1]);
        assert p[0] in order;
        var x: nat :| x < |order| && order[x] == p[0];
        var k := HasFirst(order, p[0], x);
        WalkDescends(defs, order, p, k);
      }
    }
  }

  // ---- the search ----

  /** The part of the stack from a symbol on it, closed by an edge back to that symbol. */
  lemma StackCycle(defs: seq<Def>, stack: seq<nat>, last: nat)
    requires IsWalk(defs, stack) && last in stack && Edge(defs, stack[|stack| - 1], last)
    ensures HasCycle(defs)
  {
    var k :| 0 <= k < |stack| && stack[k] == last;
    var p := stack[k..] + [last];
    forall j {:trigger p[j]} | 0 < j < |p| ensures Edge(defs, p[j - 1], p[j])
    {
      if j < |p| - 1 { assert Edge(defs, stack[k + j - 1], stack[k + j]); }
    }
    assert IsCycle(defs, p);
  }

  lemma SortedGrows(defs: seq<Def>, order: seq<nat>, i: nat)
    requires Sorted(defs, order) && i < |defs| && forall j :: j in DefRefs(defs[i]) ==> j in order
    ensures Sorted(defs, order + [i])
  {
    var t := order + [i];
    forall k, j | 0 <= k < |t| && Edge(defs, t[k], j) ensures j in t[..k]
    {
      if k < |order| {
        assert t[..k] == order[..k];
      } else {
        assert t[..k] == order;
      }
    }
  }

  ghost function UpTo(n: nat): (r: set<nat>)
    ensures forall i :: i in r <==> 0 <= i < n
  {
    if n == 0 then {} else UpTo(n - 1) + {n - 1}
  }

  class Checker {
    const defs: seq<Def>
    var check: set<nat>           // symbols with SYMBOL_CHECK
    var checked: set<nat>         // symbols with SYMBOL_CHECKED
    var stack: seq<nat>           // symbols from the bottom to check_top
    var reports: nat              // "recursive dependency detected!" messages
    var unexpected: int           // "unexpected recursive dependency error" messages
    ghost var order: seq<nat>     // symbols whose check ended, while nothing was reported

    ghost function Unchecked(): set<nat>
      reads this
    {
      UpTo(|defs|) - checked
    }

    ghost predicate Valid()
      reads this
    {
      && Closed(defs) && unexpected == 0
      && (forall i :: i in checked ==> i < |defs|)
      && (forall i :: i in check <==> i in stack) && check <= checked
      && IsWalk(defs, stack)
      && (reports == 0 ==> Sorted(defs, order) && forall i :: i in order <==> i in checked - check)
      && (reports > 0 ==> HasCycle(defs))
    }

    constructor (defs: seq<Def>)
      requires Closed(defs)
      ensures Valid() && this.defs == defs && check == {} && checked == {} && stack == [] && reports == 0
    {
      this.defs := defs;
      check, checked, stack, reports, unexpected, order := {}, {}, [], 0, 0, [];
    }

    /** What a check leaves in place, whatever it finds. */
    twostate predicate Kept()
      reads this
    {
      && Valid() && check == old(check) && stack == old(stack) && checked >= old(checked) && reports >= old(reports)
    }

    /** What a search through some references has established. */
    ghost predicate Searched(r: Maybe<nat>, refs: set<nat>)
      reads this
    {
      if r.Just? then r.value in check && reports > 0 else reports == 0 ==> refs <= checked - check
    }

    /** The references are dependencies of the symbol on top of the stack. */
    ghost predicate OfTop(refs: set<nat>)
      reads this
    {
      stack != [] && stack[|stack| - 1] < |defs| && refs <= DefRefs(defs[stack[|stack| - 1]])
    }

    /** sym_check_print_recursive: the symbol is always found on the stack. */
    method PrintRecursive(last: nat)
      requires Valid() && last in check && OfTop({last})
      modifies this
      ensures Kept() && reports > 0 && checked == old(checked)
    {
      StackCycle(defs, stack, last);
      var found := last in stack;
      reports := reports + if found then 1 else 0;
      unexpected := unexpected + if found then 0 else 1;
    }

    /** sym_check_expr_deps: the symbols of an expression from left to right, up to the first hit. */
    method CheckExpr(e: Expr) returns (r: Maybe<nat>)
      requires Valid() && OfTop(Refs(e))
      modifies this
      ensures Kept() && Searched(r, Refs(e))
      decreases Unchecked(), 3, e
    {
      hide Valid;
      match e {
        case Sym(s) => r := CheckSymbol(s);
        case Not(a) => r := CheckExpr(a);
        case Bin(_, a, b) =>
          r := CheckExpr(a);
          if r.Nothing? { r := CheckExpr(b); }
        case Equal(s, t) =>
          r := CheckSymbol(s);
          if r.Nothing? { r := CheckSymbol(t); }
        case Unequal(s, t) =>
          r := CheckSymbol(s);
          if r.Nothing? { r := CheckSymbol(t); }
      }
    }

    /** Constant symbols have no properties and end the search at once. */
    method CheckSymbol(s: Symbol) returns (r: Maybe<nat>)
      requires Valid() && OfTop(SymRefs(s))
      modifies this
      ensures Kept() && Searched(r, SymRefs(s))
      decreases Unchecked(), 2
    {
      r := Nothing;
      if s.Config? { r := CheckDeps(s.id); }
    }

    method CheckMaybe(e: Maybe<Expr>) returns (r: Maybe<nat>)
      requires Valid() && OfTop(MaybeRefs(e))
      modifies this
      ensures Kept() && Searched(r, MaybeRefs(e))
      decreases Unchecked(), 4
    {
      hide Valid;
      r := Nothing;
      if e.Just? { r := CheckExpr(e.value); }
    }

    /** One property of the symbol on top of the stack. */
    method CheckProp(p: Property) returns (r: Maybe<nat>)
      requires Valid() && OfTop(PropRefs(p))
      modifies this
      ensures Kept() && Searched(r, PropRefs(p))
      decreases Unchecked(), 5
    {
      hide Valid;
      r := Nothing;
      if !p.skipped {
        r := CheckMaybe(p.visible);
        if r.Nothing? && p.isDefault { r := CheckMaybe(p.value); }
      }
    }

    /** sym_check_sym_deps */
    method CheckSymDeps(i: nat) returns (r: Maybe<nat>)
      requires Valid() && i < |defs| && stack != [] && stack[|stack| - 1] == i
      modifies this
      ensures Kept() && Searched(r, DefRefs(defs[i]))
      decreases Unchecked(), 6
    {
      hide Valid;
      r := CheckMaybe(defs[i].revDep);
      var props, k := defs[i].props, 0;
      assert props[..0] == [];
      while r.Nothing? && k < |props|
        invariant Kept() && k <= |props|
        invariant Searched(r, MaybeRefs(defs[i].revDep) + PropsRefs(props[..k]))
        decreases |props| - k
      {
        assert Unchecked() <= old(Unchecked());
        PropsRefsAt(props, k);
        r := CheckProp(props[k]);
        k := k + 1;
      }
      if r.Nothing? { assert props[..k] == props; }
    }

    /** SYMBOL_CHECK and SYMBOL_CHECKED set, dep_stack_insert. */
    method Enter(i: nat)
      requires Valid() && i < |defs| && i !in checked && (stack != [] ==> OfTop({i}))
      modifies this
      ensures Valid() && check == old(check) + {i} && checked == old(checked) + {i} && stack == old(stack) + [i] && reports == old(reports)
    {
      check := check + {i};
      checked := checked + {i};
      ghost var below := stack;
      stack := stack + [i];
      forall k | 0 < k < |stack| ensures Edge(defs, stack[k - 1], stack[k])
      {
        if k < |below| { assert Edge(defs, below[k - 1], below[k]); }
      }
    }

    /** dep_stack_remove, SYMBOL_CHECK cleared. */
    method Leave(i: nat, ghost below: seq<nat>)
      requires Valid() && i < |defs| && stack == below + [i] && i !in below && (reports == 0 ==> DefRefs(defs[i]) <= checked - check)
      modifies this
      ensures Valid() && stack == below && check == old(check) - {i} && checked == old(checked) && reports == old(reports)
    {
      if reports == 0 { SortedGrows(defs, order, i); }
      stack := stack[..|stack| - 1];
      check := check - {i};
      forall k | 0 < k < |stack| ensures Edge(defs, stack[k - 1], stack[k])
      {
        assert Edge(defs, old(stack)[k - 1], old(stack)[k]);
      }
      if reports == 0 { order := order + [i]; }
    }

    /** sym_check_deps: a symbol on the stack, other than i itself, when the search runs into it. */
    method CheckDeps(i: nat) returns (r: Maybe<nat>)
      requires Valid() && i < |defs| && (stack != [] ==> OfTop({i}))
      modifies this
      ensures Kept() && i in checked && Searched(r, {i})
      decreases Unchecked(), 1
    {
      if i in check {
        PrintRecursive(i);
        return Just(i);
      }
      if i in checked {
        return Nothing;
      }
      ghost var below := stack;
      Enter(i);
      assert i in old(Unchecked()) && i !in Unchecked() && Unchecked() <= old(Unchecked());
      r := CheckSymDeps(i);
      Leave(i, below);
      if r == Just(i) {
        r := Nothing;
      }
    }
  }

  /** The pass over all symbols after parsing, from clear flags: a message is printed exactly when
      the graph has a cycle, and no SYMBOL_CHECK flag stays set. But the count of failures on which
      the caller exits stays zero even then: a hit symbol is still on the stack, and the frame that
      put it there turns the result into none. */
  method CheckAll(defs: seq<Def>) returns (c: Checker, errors: int)
    requires Closed(defs)
    ensures fresh(c) && c.defs == defs && c.check == {} && c.unexpected == 0
    ensures c.reports > 0 <==> HasCycle(defs)
    ensures c.reports == 0 ==> Sorted(defs, c.order) && forall i :: 0 <= i < |defs| ==> i in c.order
    ensures errors == 0
  {
    c := new Checker(defs);
    errors := 0;
    for i := 0 to |defs|
      invariant c.Valid() && c.check == {} && c.stack == [] && errors == 0
      invariant forall j :: 0 <= j < i ==> j in c.checked
    {
      var r := c.CheckDeps(i);
      errors := errors + if r.Just? then 1 else 0;
    }
    if c.reports == 0 { SortedHasNoCycle(defs, c.order); }
  }
}
