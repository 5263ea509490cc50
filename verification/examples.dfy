/**
  Concrete unifications: the expectations of the repository's tests, and the
  behaviours of the algorithm that the comments in the code do not mention.
 */
module Examples {
  import opened Terms
  import opened Errors
  import opened Bindings
  import opened Unification

  function N(i: int): Term {
    K(Num(i))
  }

  function A(s: string): Term {
    K(Atom(s))
  }

  function V(x: string): Term {
    Var(User(x))
  }

  /** The fresh variable `_i`. */
  function Fresh(i: nat): Term {
    Var(Gen(i))
  }

  lemma Atoms()
    ensures UnifyTerms(N(8), N(8)) == Ok(map[])
    ensures UnifyTerms(N(8), N(9)) == Fail(ConstantsDiffer(Num(8), Num(9)))
    ensures UnifyTerms(N(1), A("1")) == Fail(ConstantsDiffer(Num(1), Atom("1")))
  {
  }

  lemma VarInstantiation()
    ensures UnifyTerms(V("X"), N(8)) == Ok(map[User("X") := N(8)])
    ensures UnifyTerms(V("X"), A("alf")) == Ok(map[User("X") := A("alf")])
    ensures UnifyTerms(V("X"), Cmp("sum", [N(2), N(3), N(5)]))
            == Ok(map[User("X") := Cmp("sum", [N(2), N(3), N(5)])])
  {
  }

  lemma UnifiableVars()
    ensures UnifyTerms(V("X"), V("Y")) == Ok(map[User("X") := Fresh(1), User("Y") := Fresh(1)])
  {
  }

  lemma ComplexIdentical()
    ensures UnifyTerms(Cmp("foo", [N(1), N(2), N(3)]), Cmp("foo", [N(1), N(2), N(3)])) == Ok(map[])
  {
  }

  lemma ComplexArgumentDiffers()
    ensures UnifyTerms(Cmp("foo", [N(1), N(2), N(3)]), Cmp("foo", [N(5), N(2), N(3)]))
            == Fail(ConstantsDiffer(Num(1), Num(5)))
  {
  }

  lemma ComplexShapesDiffer()
    ensures UnifyTerms(Cmp("foo", [N(1), N(2), N(3)]), Cmp("bar", [N(2), N(3)]))
            == Fail(ComplexTermShapesDiffer(Cmp("foo", [N(1), N(2), N(3)]), Cmp("bar", [N(2), N(3)])))
  {
  }

  lemma ComplexSingleBinding()
    ensures UnifyTerms(Cmp("foo", [V("x"), N(2), N(3)]), Cmp("foo", [N(1), N(2), N(3)]))
            == Ok(map[User("x") := N(1)])
  {
  }

  /** Bindings from earlier arguments constrain later ones. */
  lemma ComplexRepeatedVariable()
    ensures UnifyTerms(Cmp("foo", [V("x"), N(1)]), Cmp("foo", [N(1), V("x")]))
            == Ok(map[User("x") := N(1)])
    ensures UnifyTerms(Cmp("foo", [V("x"), N(2)]), Cmp("foo", [N(1), V("x")]))
            == Fail(BindingsConflict(User("x"), N(1), N(2)))
  {
  }

  lemma ComplexArbitrary()
    ensures UnifyTerms(Cmp("k", [Cmp("s", [A("g")]), Cmp("t", [A("k")])]),
                       Cmp("k", [V("X"), Cmp("t", [V("Y")])]))
            == Ok(map[User("X") := Cmp("s", [A("g")]), User("Y") := A("k")])
  {
  }

  lemma NestedComplexes()
    ensures UnifyTerms(Cmp("foo", [Cmp("bar", [V("x")])]), Cmp("foo", [Cmp("bar", [N(5)])]))
            == Ok(map[User("x") := N(5)])
  {
  }

  /** The chains of `x` and `y` both run through `_1`, which holds 7. */
  lemma ChainedVariables()
    ensures UnifyTerms(Cmp("foo", [V("y"), Cmp("bar", [V("x")])]),
                       Cmp("foo", [V("x"), Cmp("bar", [N(7)])]))
            == Ok(map[User("y") := Fresh(1), User("x") := Fresh(1), Gen(1) := N(7)])
  {
    var m := map[User("y") := Fresh(1), User("x") := Fresh(1)];
    assert Unify(V("y"), V("x"), Empty) == Ok(Store(m, 1));
    assert Bind(m, User("x"), N(7)) == BindFrom(m, Gen(1), N(7), {User("x")});
    assert Unify(V("x"), N(7), Store(m, 1)) == Ok(Store(m[Gen(1) := N(7)], 1));
  }

  /** A variable whose chain already ends in a value cannot be unified with
      another variable: the value is compared with the fresh variable. */
  lemma VarVarAfterValue()
    ensures UnifyTerms(Cmp("f", [V("x"), V("x")]), Cmp("f", [N(1), V("y")]))
            == Fail(BindingsConflict(User("x"), N(1), Fresh(1)))
  {
  }

  /** The conflict names the chain key that holds the value, here `_1`, not
      the variable being bound. */
  lemma ConflictAtGeneratedName()
    ensures UnifyTerms(Cmp("f", [V("x"), V("y"), V("x")]), Cmp("f", [V("y"), N(1), N(2)]))
            == Fail(BindingsConflict(Gen(1), N(1), N(2)))
  {
    var m := map[User("x") := Fresh(1), User("y") := Fresh(1)];
    assert Unify(V("x"), V("y"), Empty) == Ok(Store(m, 1));
    assert Bind(m, User("y"), N(1)) == BindFrom(m, Gen(1), N(1), {User("y")});
    var m' := m[Gen(1) := N(1)];
    assert Unify(V("y"), N(1), Store(m, 1)) == Ok(Store(m', 1));
    assert Bind(m', User("x"), N(2)) == BindFrom(m', Gen(1), N(2), {User("x")});
    assert Unify(V("x"), N(2), Store(m', 1)) == Fail(BindingsConflict(Gen(1), N(1), N(2)));
  }

  /** A variable unified with itself is bound to `_1`, and `_1` to itself. */
  lemma VariableWithItself()
    ensures UnifyTerms(V("x"), V("x")) == Ok(map[User("x") := Fresh(1), Gen(1) := Fresh(1)])
  {
    var m := map[User("x") := Fresh(1)];
    assert Bind(m, User("x"), Fresh(1)) == BindFrom(m, Gen(1), Fresh(1), {User("x")});
  }

  /** Unifying two already aliased variables again leaves a self-loop on the
      newer fresh variable. */
  lemma AliasedAgain()
    ensures UnifyTerms(Cmp("f", [V("x"), V("x")]), Cmp("f", [V("y"), V("y")]))
            == Ok(map[User("x") := Fresh(1), User("y") := Fresh(1), Gen(1) := Fresh(2), Gen(2) := Fresh(2)])
  {
    var m := map[User("x") := Fresh(1), User("y") := Fresh(1)];
    assert Unify(V("x"), V("y"), Empty) == Ok(Store(m, 1));
    assert Bind(m, User("x"), Fresh(2)) == BindFrom(m, Gen(1), Fresh(2), {User("x")});
    var m1 := m[Gen(1) := Fresh(2)];
    assert {} + {User("y")} == {User("y")} && {User("y")} + {Gen(1)} == {User("y"), Gen(1)};
    assert Bind(m1, User("y"), Fresh(2)) == BindFrom(m1, Gen(1), Fresh(2), {User("y")});
    assert BindFrom(m1, Gen(1), Fresh(2), {User("y")})
        == BindFrom(m1, Gen(2), Fresh(2), {User("y"), Gen(1)});
    var m2 := m1[Gen(2) := Fresh(2)];
    assert LinkToFresh(Store(m, 1), User("x"), User("y")) == Ok(Store(m2, 2));
    assert Unify(V("x"), V("y"), Store(m, 1)) == Ok(Store(m2, 2));
    assert UnifyArgs([V("x")], [V("y")], Store(m, 1)) == Ok(Store(m2, 2));
    assert UnifyArgs([V("x"), V("x")], [V("y"), V("y")], Empty) == Ok(Store(m2, 2));
  }

  /** The self-loop left by `x` against `x` makes the next bind through `x`
      diverge, although `{x: 1}` unifies the two terms. */
  lemma DivergesAfterSelfLoop()
    ensures UnifyTerms(Cmp("f", [V("x"), V("x")]), Cmp("f", [V("x"), N(1)])) == Diverges
    ensures Agree(map[User("x") := N(1)], Cmp("f", [V("x"), V("x")]), Cmp("f", [V("x"), N(1)]), 2)
  {
    var m := map[User("x") := Fresh(1), Gen(1) := Fresh(1)];
    assert Unify(V("x"), V("x"), Empty) == Ok(Store(m, 1)) by {
      var m0 := map[User("x") := Fresh(1)];
      assert Bind(m0, User("x"), Fresh(1)) == BindFrom(m0, Gen(1), Fresh(1), {User("x")});
    }
    assert {} + {User("x")} == {User("x")} && {User("x")} + {Gen(1)} == {User("x"), Gen(1)};
    assert Bind(m, User("x"), N(1)) == BindFrom(m, Gen(1), N(1), {User("x")});
    assert BindFrom(m, Gen(1), N(1), {User("x")}) == BindFrom(m, Gen(1), N(1), {User("x"), Gen(1)});
    assert Unify(V("x"), N(1), Store(m, 1)) == Diverges;
    var m1 := map[User("x") := N(1)];
    assert Walk(m1, User("x"), {}) == BoundTo(User("x"), N(1));
    var a := Cmp("f", [V("x"), V("x")]);
    var b := Cmp("f", [V("x"), N(1)]);
    assert Agree(m1, a.args[0], b.args[0], 1);
    assert Agree(m1, a.args[1], b.args[1], 1);
  }

  /** No occurs check: a variable is bound to a term that contains it. */
  lemma NoOccursCheck()
    ensures UnifyTerms(V("X"), Cmp("f", [V("X")])) == Ok(map[User("X") := Cmp("f", [V("X")])])
  {
  }

  /** A constant against a complex term deep inside the arguments. */
  lemma DifferentTypesInside()
    ensures Unify(Cmp("f", [N(1)]), Cmp("f", [Cmp("g", [])]), Empty) == CtorTypeError(N(1), Cmp("g", []))
    ensures UnifyTerms(Cmp("f", [N(1)]), Cmp("f", [Cmp("g", [])]))
            == Fail(TermsOfDifferentType(N(1), Cmp("g", [])))
  {
  }
}
