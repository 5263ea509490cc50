/**
  First-order syntactic unification without occurs check. `Unify` dispatches on
  the pair of term shapes in a fixed order and threads one binding store
  through the arguments of complex terms, left to right.
 */
module Unification {
  import opened Terms
  import opened Errors
  import opened Bindings

  /** Binds `n` to `value` in the store `s`; the counter is untouched. */
  function BindIn(s: Store, n: Name, value: Term): (r: Outcome<Store>) {
    var m :- Bind(s.vars, n, value);
    Ok(Store(m, s.generated))
  }

  /** Two variables: mint one fresh variable and bind `x`, then `y`, to it,
      instead of pointing the variables at each other. */
  function LinkToFresh(s: Store, x: Name, y: Name): (r: Outcome<Store>)
    ensures r.Ok? ==> Extends(r.value.vars, s.vars) && r.value.generated == s.generated + 1
    ensures r.Fail? ==> r.error.BindingsConflict? && Justified(r.error)
    ensures !r.CtorTypeError?
  {
    var (s1, t) := New(s);
    var m1 :- Bind(s1.vars, x, Var(t));
    var m2 :- Bind(m1, y, Var(t));
    Ok(Store(m2, s1.generated))
  }

  /** unify(a, b, vars), as written. A successful result extends the input
      store and never lowers the counter; every failure carries values that
      justify it; the `TermsOfDifferentType` failure is never produced,
      because constructing it escapes as a type error, and that only for a
      constant against a complex term. */
  function Unify(a: Term, b: Term, s: Store): (r: Outcome<Store>)
    ensures r.Ok? ==> Extends(r.value.vars, s.vars) && s.generated <= r.value.generated
    ensures r.Fail? ==> Justified(r.error) && !r.error.TermsOfDifferentType?
    ensures r.CtorTypeError? ==> || (IsConstant(r.termA) && IsComplex(r.termB))
                                 || (IsComplex(r.termA) && IsConstant(r.termB))
    decreases a
  {
    if IsConstant(a) && IsConstant(b) then
      if a.c != b.c then Fail(ConstantsDiffer(a.c, b.c)) else Ok(s)
    else if IsVariable(a) && IsVariable(b) then
      LinkToFresh(s, a.name, b.name)
    else if IsVariable(a) then
      BindIn(s, a.name, b)
    else if IsVariable(b) then
      BindIn(s, b.name, a)
    else if IsComplex(a) && IsComplex(b) then
      if a.functor != b.functor || Arity(a) != Arity(b) then
        Fail(ComplexTermShapesDiffer(a, b))
      else
        UnifyArgs(a.args, b.args, s)
    else
      CtorTypeError(a, b)
  }

  /** The loop over zip(xs, ys): pairs are unified in order with one threaded
      store, and the first failure ends the loop. */
  function UnifyArgs(xs: seq<Term>, ys: seq<Term>, s: Store): (r: Outcome<Store>)
    ensures r.Ok? ==> Extends(r.value.vars, s.vars) && s.generated <= r.value.generated
    ensures r.Fail? ==> Justified(r.error) && !r.error.TermsOfDifferentType?
    ensures r.CtorTypeError? ==> || (IsConstant(r.termA) && IsComplex(r.termB))
                                 || (IsComplex(r.termA) && IsConstant(r.termB))
    decreases xs
  {
    if |xs| == 0 || |ys| == 0 then Ok(s)
    else
      var s1 :- Unify(xs[0], ys[0], s);
      UnifyArgs(xs[1..], ys[1..], s1)
  }

  /** Turns the escaped type error into the failure its raise site names.
      Nothing between the raise site and the caller catches anything, so this
      is the same as fixing the constructor. */
  function Repair<T>(o: Outcome<T>): Outcome<T> {
    if o.CtorTypeError? then Fail(TermsOfDifferentType(o.termA, o.termB)) else o
  }

  /** unify(a, b, vars) with the `TermsOfDifferentType` constructor fixed:
      every failure is one of the four `CannotUnify` kinds, and
      `TermsOfDifferentType` reports a constant against a complex term. */
  function UnifyFixed(a: Term, b: Term, s: Store): (r: Outcome<Store>)
    ensures !r.CtorTypeError?
    ensures r.Ok? ==> Extends(r.value.vars, s.vars)
    ensures r.Fail? ==> Justified(r.error)
  {
    Repair(Unify(a, b, s))
  }

  /** unify(a, b) without a store, with the `TermsOfDifferentType`
      constructor repaired: a fresh store is used and its raw mapping is
      returned. As written, the same call escapes as a type error wherever
      `Unify` gives `CtorTypeError`. */
  function UnifyTerms(a: Term, b: Term): (r: Outcome<Vars>)
    ensures !r.CtorTypeError?
    ensures r.Fail? ==> Justified(r.error)
  {
    var s :- UnifyFixed(a, b, Empty);
    Ok(s.vars)
  }

  // The cases of the dispatch

  /** Two constants: equal ones leave the store as it is, different ones
      (a number against an atom included) fail with both, in order. */
  lemma UnifyConstants(x: Const, y: Const, s: Store)
    ensures x == y ==> Unify(K(x), K(y), s) == Ok(s)
    ensures x != y ==> Unify(K(x), K(y), s) == Fail(ConstantsDiffer(x, y))
  {
  }

  /** The reference outcome of unifying two variables, read off the chains of
      the store before the call: `t` is the one fresh name minted; a chain
      ending in a concrete value conflicts with the fresh variable; otherwise
      the end of `x`'s chain and then the end of `y`'s chain are linked to
      `t`, and when both chains end at the same name, the second link is the
      self-loop `t -> t`. */
  function VarVarReference(x: Name, y: Name, s: Store): Outcome<Store> {
    var t := Gen(s.generated + 1);
    match Walk(s.vars, x, {})
    case Cycle(_) => Diverges
    case BoundTo(k, v) => Fail(BindingsConflict(k, v, Var(t)))
    case Unbound(k) =>
      match Walk(s.vars, y, {})
      case Cycle(_) => Diverges
      case BoundTo(k', v') => Fail(BindingsConflict(k', v', Var(t)))
      case Unbound(k') => Ok(Store(LinkEnds(s.vars, k, k', t), s.generated + 1))
  }

  /** The two links of the variable-variable case: the end `k` of the first
      chain is bound to `t`; then the end of the second chain is, which is `t`
      itself when both chains ended at `k`. */
  function LinkEnds(m: Vars, k: Name, k': Name, t: Name): Vars {
    var second := if k' == k then t else k';
    m[k := Var(t)][second := Var(t)]
  }

  /** Unifying two variables (the branch `LinkToFresh`) does exactly what
      the reference says. */
  lemma VarVarMatchesReference(x: Name, y: Name, s: Store)
    requires Wf(s) && InScope(x, s.generated)
    ensures LinkToFresh(s, x, y) == VarVarReference(x, y, s)
  {
    var m := s.vars;
    var t := Gen(s.generated + 1);
    var r1 := Bind(m, x, Var(t));
    BindIsWalk(m, x, Var(t), {});
    assert r1 == SettleAt(m, Walk(m, x, {}), Var(t));
    match Walk(m, x, {})
    case Cycle(_) =>
    case BoundTo(k, v) =>
    case Unbound(k) =>
      WalkStaysInScope(m, s.generated, x, {});
      var m1 := m[k := Var(t)];
      assert r1 == Ok(m1);
      BindIsWalk(m1, y, Var(t), {});
      if Walk(m, y, {}) == Unbound(k) {
        WalkAfterLink(m, y, {}, k, t);
        assert Walk(m1, y, {}) == Unbound(t);
      } else {
        WalkAfterInsertElsewhere(m, y, {}, k, Var(t));
        assert Walk(m1, y, {}) == Walk(m, y, {});
      }
  }

  /** Linking the unbound end `k` of `x`'s chain to the unbound name `t`, and
      then the end of `y`'s chain in the new store, makes both chains end at
      the same place: `t` itself, or a self-loop on `t`. */
  lemma LinkedChainsMeet(m: Vars, x: Name, y: Name, k: Name, k': Name, t: Name)
    requires Walk(m, x, {}) == Unbound(k) && Walk(m, y, {}) == Unbound(k')
    requires t !in m && k != t
    ensures var m2 := LinkEnds(m, k, k', t);
            && Walk(m2, x, {}) == Walk(m2, y, {})
            && (|| Walk(m2, x, {}) == Unbound(t)
                || (Walk(m2, x, {}) == Cycle(t) && IsSelfLoop(m2, t)))
  {
    var m1 := m[k := Var(t)];
    WalkAfterLink(m, x, {}, k, t);
    var second := if k' == k then t else k';
    if k' == k {
      WalkAfterLink(m, y, {}, k, t);
    } else {
      WalkAfterInsertElsewhere(m, y, {}, k, Var(t));
    }
    assert Walk(m1, y, {}) == Unbound(second);
    if second == t {
      WalkAfterLink(m1, x, {}, t, t);
      WalkAfterLink(m1, y, {}, t, t);
    } else {
      WalkAfterLink(m1, y, {}, second, t);
      WalkAfterInsertElsewhere(m1, x, {}, second, Var(t));
    }
  }

  /** A successful variable-variable unification makes both chains end at
      the same place: the fresh variable, unbound, or a self-loop on it. */
  lemma VarVarAliases(x: Name, y: Name, s: Store)
    requires Wf(s) && InScope(x, s.generated)
    requires LinkToFresh(s, x, y).Ok?
    ensures var m' := LinkToFresh(s, x, y).value.vars;
            var t := Gen(s.generated + 1);
            && Walk(m', x, {}) == Walk(m', y, {})
            && (|| Walk(m', x, {}) == Unbound(t)
                || (Walk(m', x, {}) == Cycle(t) && IsSelfLoop(m', t)))
  {
    VarVarMatchesReference(x, y, s);
    ReferenceAliases(x, y, s);
  }

  lemma ReferenceAliases(x: Name, y: Name, s: Store)
    requires Wf(s) && InScope(x, s.generated)
    requires VarVarReference(x, y, s).Ok?
    ensures var m' := VarVarReference(x, y, s).value.vars;
            var t := Gen(s.generated + 1);
            && Walk(m', x, {}) == Walk(m', y, {})
            && (|| Walk(m', x, {}) == Unbound(t)
                || (Walk(m', x, {}) == Cycle(t) && IsSelfLoop(m', t)))
  {
    var t := Gen(s.generated + 1);
    var ex := Walk(s.vars, x, {});
    var ey := Walk(s.vars, y, {});
    WalkStaysInScope(s.vars, s.generated, x, {});
    LinkedChainsMeet(s.vars, x, y, ex.key, ey.key, t);
  }

  /** Unifying a variable with itself, when it is unbound, binds it to the
      fresh variable and that fresh variable to itself: the binding graph is
      not acyclic, and every later bind through the variable diverges. */
  lemma SameVariableMakesSelfLoop(x: Name, s: Store, value: Term)
    requires Wf(s) && InScope(x, s.generated) && x !in s.vars
    ensures var t := Gen(s.generated + 1);
            Unify(Var(x), Var(x), s) == Ok(Store(s.vars[x := Var(t)][t := Var(t)], s.generated + 1))
    ensures Bind(Unify(Var(x), Var(x), s).value.vars, x, value) == Diverges
  {
    assert Unify(Var(x), Var(x), s) == LinkToFresh(s, x, x);
    VarVarMatchesReference(x, x, s);
    var t := Gen(s.generated + 1);
    var m2 := s.vars[x := Var(t)][t := Var(t)];
    assert x != t;
    assert {} + {x} == {x} && {x} + {t} == {x, t};
    assert BindFrom(m2, x, value, {}) == BindFrom(m2, t, value, {x});
    assert BindFrom(m2, t, value, {x}) == BindFrom(m2, t, value, {x, t});
  }

  /** A variable against a non-variable, on either side, binds the variable
      to that term as it is (no occurs check); an unbound variable simply
      gets the term as its value. */
  lemma VarAgainstTerm(x: Name, u: Term, s: Store)
    requires !u.Var?
    ensures Unify(Var(x), u, s) == BindIn(s, x, u)
    ensures Unify(u, Var(x), s) == BindIn(s, x, u)
    ensures x !in s.vars ==> Unify(Var(x), u, s) == Ok(Store(s.vars[x := u], s.generated))
  {
  }

  /** Complex terms of different functor or arity fail before any argument
      is looked at. */
  lemma ShapesDifferFirst(f: string, xs: seq<Term>, g: string, ys: seq<Term>, s: Store)
    requires f != g || |xs| != |ys|
    ensures Unify(Cmp(f, xs), Cmp(g, ys), s) == Fail(ComplexTermShapesDiffer(Cmp(f, xs), Cmp(g, ys)))
  {
  }

  /** Complex terms of the same shape unify argument by argument. */
  lemma SameShapeUnifiesArgs(f: string, xs: seq<Term>, ys: seq<Term>, s: Store)
    requires |xs| == |ys|
    ensures Unify(Cmp(f, xs), Cmp(f, ys), s) == UnifyArgs(xs, ys, s)
  {
  }

  /** The store threads through the arguments: unifying the first part and
      then the rest from the resulting store is unifying the whole, and a
      failure in the first part is the failure of the whole. */
  lemma {:induction false} UnifyArgsSplit(xs1: seq<Term>, xs2: seq<Term>, ys1: seq<Term>, ys2: seq<Term>, s: Store)
    requires |xs1| == |ys1|
    ensures var r := UnifyArgs(xs1, ys1, s);
            UnifyArgs(xs1 + xs2, ys1 + ys2, s) == if r.Ok? then UnifyArgs(xs2, ys2, r.value) else r
    decreases |xs1|
  {
    if |xs1| == 0 {
      assert xs1 + xs2 == xs2;
      assert ys1 + ys2 == ys2;
    } else {
      assert (xs1 + xs2)[0] == xs1[0];
      assert (ys1 + ys2)[0] == ys1[0];
      assert (xs1 + xs2)[1..] == xs1[1..] + xs2;
      assert (ys1 + ys2)[1..] == ys1[1..] + ys2;
      var r0 := Unify(xs1[0], ys1[0], s);
      if r0.Ok? {
        UnifyArgsSplit(xs1[1..], xs2, ys1[1..], ys2, r0.value);
      }
    }
  }

  /** The first argument pair that fails decides the outcome: pairs after it
      are never visited. */
  lemma FirstFailureAborts(xs: seq<Term>, ys: seq<Term>, i: nat, s: Store)
    requires |xs| == |ys| && i < |xs|
    requires UnifyArgs(xs[..i], ys[..i], s).Ok?
    requires !Unify(xs[i], ys[i], UnifyArgs(xs[..i], ys[..i], s).value).Ok?
    ensures UnifyArgs(xs, ys, s) == Unify(xs[i], ys[i], UnifyArgs(xs[..i], ys[..i], s).value)
  {
    assert xs == xs[..i] + xs[i..];
    assert ys == ys[..i] + ys[i..];
    UnifyArgsSplit(xs[..i], xs[i..], ys[..i], ys[i..], s);
    assert xs[i..][0] == xs[i] && ys[i..][0] == ys[i];
  }

  /** A constant against a complex term, in either order: as written the
      raise escapes as a type error; fixed, it is `TermsOfDifferentType`. */
  lemma ConstantAgainstComplex(a: Term, b: Term, s: Store)
    requires (IsConstant(a) && IsComplex(b)) || (IsComplex(a) && IsConstant(b))
    ensures Unify(a, b, s) == CtorTypeError(a, b)
    ensures UnifyFixed(a, b, s) == Fail(TermsOfDifferentType(a, b))
  {
  }

  // Well-formedness of the store

  /** Unifying terms whose names are in scope keeps the store well formed. */
  lemma {:induction false} UnifyKeepsWf(a: Term, b: Term, s: Store)
    requires Wf(s) && NamesWithin(a, s.generated) && NamesWithin(b, s.generated)
    ensures Unify(a, b, s).Ok? ==> Wf(Unify(a, b, s).value)
    decreases a
  {
    if IsConstant(a) && IsConstant(b) {
    } else if IsVariable(a) && IsVariable(b) {
      var g := s.generated + 1;
      WfVarsGrow(s.vars, s.generated, g);
      BindKeepsWf(s.vars, g, a.name, Var(Gen(g)));
      var r1 := Bind(s.vars, a.name, Var(Gen(g)));
      if r1.Ok? {
        BindKeepsWf(r1.value, g, b.name, Var(Gen(g)));
      }
    } else if IsVariable(a) {
      BindKeepsWf(s.vars, s.generated, a.name, b);
    } else if IsVariable(b) {
      BindKeepsWf(s.vars, s.generated, b.name, a);
    } else if IsComplex(a) && IsComplex(b) && a.functor == b.functor && Arity(a) == Arity(b) {
      UnifyArgsKeepsWf(a.args, b.args, s);
    }
  }

  lemma {:induction false} UnifyArgsKeepsWf(xs: seq<Term>, ys: seq<Term>, s: Store)
    requires Wf(s)
    requires forall i | 0 <= i < |xs| :: NamesWithin(xs[i], s.generated)
    requires forall i | 0 <= i < |ys| :: NamesWithin(ys[i], s.generated)
    ensures UnifyArgs(xs, ys, s).Ok? ==> Wf(UnifyArgs(xs, ys, s).value)
    decreases xs
  {
    if |xs| > 0 && |ys| > 0 {
      UnifyKeepsWf(xs[0], ys[0], s);
      var r := Unify(xs[0], ys[0], s);
      if r.Ok? {
        var g := r.value.generated;
        forall i | 0 <= i < |xs| - 1
          ensures NamesWithin(xs[1..][i], g)
        {
          NamesWithinGrow(xs[i + 1], s.generated, g);
        }
        forall i | 0 <= i < |ys| - 1
          ensures NamesWithin(ys[1..][i], g)
        {
          NamesWithinGrow(ys[i + 1], s.generated, g);
        }
        UnifyArgsKeepsWf(xs[1..], ys[1..], r.value);
      }
    }
  }

  /** Unifying caller-written terms from an empty store yields a store whose
      only cycles are self-loops on generated names: a later bind diverges
      exactly when the chain of the name being bound runs into one. */
  lemma OnlySelfLoops(a: Term, b: Term, n: Name, value: Term)
    requires UserTerm(a) && UserTerm(b)
    requires UnifyFixed(a, b, Empty).Ok?
    ensures var m := UnifyFixed(a, b, Empty).value.vars;
            Bind(m, n, value).Diverges? <==> Walk(m, n, {}).Cycle? && IsSelfLoop(m, Walk(m, n, {}).at)
    ensures var m := UnifyFixed(a, b, Empty).value.vars;
            Bind(m, n, value).Diverges? ==> Walk(m, n, {}).at.Gen?
  {
    UnifyKeepsWf(a, b, Empty);
    BindDivergesIffSelfLoop(UnifyFixed(a, b, Empty).value, n, value);
  }

  // What a successful unification promises

  /** What a term stands for at the top once chains are followed: a
      non-variable stands for itself; a variable for the concrete value its
      chain ends at, or else for the variable at the chain's end (the unbound
      end, or the key of the self-loop the chain runs into). */
  function Head(m: Vars, t: Term): Term {
    if !t.Var? then t
    else match Walk(m, t.name, {})
      case Unbound(k) => Var(k)
      case Cycle(k) => Var(k)
      case BoundTo(_, v) => v
  }

  /** `a` and `b` stand for the same term in `m`, down to depth `fuel`: their
      heads are equal, or both heads are complex terms of one functor and
      arity whose arguments agree pairwise one level down. The depth bound is
      needed because without an occurs check a variable may stand for an
      infinite term. */
  predicate Agree(m: Vars, a: Term, b: Term, fuel: nat)
    decreases fuel
  {
    var ha := Head(m, a);
    var hb := Head(m, b);
    || fuel == 0
    || ha == hb
    || (&& ha.Cmp? && hb.Cmp? && ha.functor == hb.functor && |ha.args| == |hb.args|
        && forall i | 0 <= i < |ha.args| :: Agree(m, ha.args[i], hb.args[i], fuel - 1))
  }

  /** Two terms with the same head keep equal heads in a larger well-formed
      store; a concrete head does not change at all. */
  lemma HeadsStayEqual(m: Vars, m': Vars, g: nat, a: Term, b: Term)
    requires Extends(m', m) && WfVars(m', g)
    ensures !Head(m, a).Var? ==> Head(m', a) == Head(m, a)
    ensures Head(m, a) == Head(m, b) ==> Head(m', a) == Head(m', b)
  {
    if a.Var? {
      WalkAfterGrowth(m, m', g, a.name);
    }
    if b.Var? {
      WalkAfterGrowth(m, m', g, b.name);
    }
  }

  /** Agreement survives growth of the store, as happens when later argument
      pairs are unified. */
  lemma {:induction false} AgreePersists(m: Vars, m': Vars, g: nat, a: Term, b: Term, fuel: nat)
    requires Extends(m', m) && WfVars(m', g)
    requires Agree(m, a, b, fuel)
    ensures Agree(m', a, b, fuel)
    decreases fuel
  {
    if fuel > 0 {
      HeadsStayEqual(m, m', g, a, b);
      HeadsStayEqual(m, m', g, b, a);
      if Head(m, a) != Head(m, b) {
        var ha := Head(m, a);
        var hb := Head(m, b);
        forall i | 0 <= i < |ha.args|
          ensures Agree(m', ha.args[i], hb.args[i], fuel - 1)
        {
          AgreePersists(m, m', g, ha.args[i], hb.args[i], fuel - 1);
        }
      }
    }
  }

  /** A successful unification returns bindings under which the two terms
      stand for the same term, to every depth. */
  lemma {:induction false} UnifyAgrees(a: Term, b: Term, s: Store, fuel: nat)
    requires Wf(s) && NamesWithin(a, s.generated) && NamesWithin(b, s.generated)
    requires Unify(a, b, s).Ok?
    ensures Agree(Unify(a, b, s).value.vars, a, b, fuel)
    decreases a
  {
    if IsConstant(a) && IsConstant(b) {
      assert a == b;
    } else if IsVariable(a) && IsVariable(b) {
      assert Unify(a, b, s) == LinkToFresh(s, a.name, b.name);
      VarVarAliases(a.name, b.name, s);
    } else if IsVariable(a) {
      BindSettlesChain(s.vars, a.name, b);
    } else if IsVariable(b) {
      BindSettlesChain(s.vars, b.name, a);
    } else if fuel > 0 {
      UnifyArgsAgree(a.args, b.args, s, fuel - 1);
    }
  }

  lemma {:induction false} UnifyArgsAgree(xs: seq<Term>, ys: seq<Term>, s: Store, fuel: nat)
    requires Wf(s)
    requires forall i | 0 <= i < |xs| :: NamesWithin(xs[i], s.generated)
    requires forall i | 0 <= i < |ys| :: NamesWithin(ys[i], s.generated)
    requires UnifyArgs(xs, ys, s).Ok?
    ensures forall i | 0 <= i < |xs| && i < |ys| :: Agree(UnifyArgs(xs, ys, s).value.vars, xs[i], ys[i], fuel)
    decreases xs
  {
    if |xs| > 0 && |ys| > 0 {
      var s1 := Unify(xs[0], ys[0], s).value;
      var s2 := UnifyArgs(xs[1..], ys[1..], s1).value;
      assert UnifyArgs(xs, ys, s).value == s2;
      UnifyAgrees(xs[0], ys[0], s, fuel);
      UnifyKeepsWf(xs[0], ys[0], s);
      forall i | 0 <= i < |xs| - 1
        ensures NamesWithin(xs[1..][i], s1.generated)
      {
        NamesWithinGrow(xs[i + 1], s.generated, s1.generated);
      }
      forall i | 0 <= i < |ys| - 1
        ensures NamesWithin(ys[1..][i], s1.generated)
      {
        NamesWithinGrow(ys[i + 1], s.generated, s1.generated);
      }
      UnifyArgsKeepsWf(xs[1..], ys[1..], s1);
      AgreePersists(s1.vars, s2.vars, s2.generated, xs[0], ys[0], fuel);
      UnifyArgsAgree(xs[1..], ys[1..], s1, fuel);
      forall i | 0 <= i < |xs| && i < |ys|
        ensures Agree(s2.vars, xs[i], ys[i], fuel)
      {
        if i > 0 {
          assert xs[i] == xs[1..][i - 1] && ys[i] == ys[1..][i - 1];
        }
      }
    }
  }

  /** unify(a, b) on caller-written terms returns a map of variable names to
      the values that make the two terms the same. */
  lemma UnifyTermsAgrees(a: Term, b: Term, fuel: nat)
    requires UserTerm(a) && UserTerm(b)
    requires UnifyTerms(a, b).Ok?
    ensures Agree(UnifyTerms(a, b).value, a, b, fuel)
  {
    UnifyAgrees(a, b, Empty, fuel);
  }
}
