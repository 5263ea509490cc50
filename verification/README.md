# First-order unification, modelled in Dafny

This project models the unification core of a small Prolog-style experiment.
Two terms are made syntactically identical by binding variables in a binding
store. If that is impossible, unification fails with one of four "cannot unify" reasons.

- **Terms** (`terms.dfy`, module `Terms`).
  - A term is a constant, a variable or a complex term.
  - A constant is a number (`Num`) or an atom (`Atom`); a number never equals an atom.
  - A variable is compared by name only.
  - A complex term is a functor and an ordered argument sequence. Its arity is the length of that sequence.
  - Variable names are either `User(x)`, chosen by the caller, or `Gen(i)`, the name `_i` minted by the store.
  - Assumption: no caller-chosen name is spelled `_` followed by digits. The source does not enforce this; the model relies on it.
  - `Equal` models the `__eq__` methods of the variable and complex-term classes. `EqualIsIdentity` proves it coincides with Dafny's `==`.
- **Failures** (`errors.dfy`, module `Errors`).
  - `CannotUnify` has the four kinds: `ConstantsDiffer`, `BindingsConflict`, `ComplexTermShapesDiffer` and `TermsOfDifferentType`.
  - `Outcome` adds two results that are not `CannotUnify` failures. `Diverges` means the recursion never ends. `CtorTypeError` means a Python `TypeError` escaped instead of `TermsOfDifferentType`.
- **Binding store** (`bindings.dfy`, module `Bindings`).
  - A `Store` holds the variable map and the count of names minted so far.
  - `New` mints `_1`, `_2`, … in order.
  - `BindFrom`/`Bind` is `Variables.bind`. It follows a chain of variable-to-variable bindings and acts at the chain's end.
  - `Bind` is total: when a chain comes back to a name it has already passed, the result is `Diverges`, because the source's recursion would never end there.
  - `Walk` is an independent definition of where a chain ends. `BindIsWalk` proves that bind's four cases are decided there.
  - `Wf` is the invariant that unification keeps: every variable-to-variable entry points at a generated name of rank at least its key's. From it, `CycleNeedsSelfLoop` proves that a chain can come back on itself only at a self-loop `_i -> _i`, and `BindDivergesIffSelfLoop` that a bind diverges exactly when the chain of the name being bound runs into one.
- **Unification** (`unification.dfy`, module `Unification`).
  - `Unify`/`UnifyArgs` is `unify` exactly as written. It dispatches on the shape pair in source order and threads one store through the arguments, left to right.
  - `UnifyFixed` is the same algorithm with the `TermsOfDifferentType` constructor repaired.
  - `UnifyTerms` is `unify(a, b)` without a store, with the constructor repaired. It starts from an empty store and returns the raw mapping. As written, that call raises `TypeError` wherever `Unify` gives `CtorTypeError`.
  - `Agree` says that two terms stand for the same term in a store, once chains are followed, down to any given depth. `UnifyAgrees` proves that a successful unification returns such a store, as the docstring of `unify` promises.
- **Examples** (`examples.dfy`, module `Examples`): the expectations of the repository's tests, plus the behaviours below, each proved on concrete terms.

Behaviours of the code that its comments do not state:

- Unifying two variables binds both to one fresh variable. If either chain already ends in a concrete value, that value is compared with the fresh variable, so the call fails with `BindingsConflict` (`VarVarMatchesReference`, `Examples.VarVarAfterValue`).
- The store is described as acyclic, but it is not. Unifying a variable with itself, or two variables that are already aliased, leaves a self-loop `_i -> _i`. Any later bind through that chain never terminates, so a pair of unifiable terms such as `f(x, x)` and `f(x, 1)` diverges (`SameVariableMakesSelfLoop`, `Examples.AliasedAgain`, `Examples.DivergesAfterSelfLoop`).
- The docstring of `bind` says that a chain ending in an assigned value raises `BindingsConflict`. The code raises only when that value differs from the new one, and does nothing when they are equal. The model follows the code (`BindCases`).
- The name in a `BindingsConflict` is the chain key holding the value, which may be a generated `_i` (`Examples.ConflictAtGeneratedName`).
- There is no occurs check (`Examples.NoOccursCheck`).

## Model

| member | source | states |
|---|---|---|
| Terms.ShapesPartition | unification.py:20-38 | every term is exactly one of constant, variable or complex, and a constant is exactly one of atom or number |
| Terms.EqualIsIdentity | unification.py:87-107 | variable equality by name and complex-term equality by functor and pairwise-equal arguments coincide with equality of term values |
| Bindings.New | unification.py:71-75 | the minted name was never minted before, and the minted names grow by exactly that name |
| Bindings.NewIsUnused | unification.py:71-75 | in a well-formed store the next fresh name is neither bound nor the target of any binding |
| Bindings.Walk | unification.py:55-57 | following variable-to-variable bindings ends at an unbound name, at a name holding a concrete (non-variable) value, or in a cycle |
| Bindings.BindFrom | unification.py:60-66 | a successful bind keeps every existing entry and adds entries only with the given value; a failure is a `BindingsConflict` naming a key whose stored concrete value differs from the new value |
| Bindings.BindIsWalk | unification.py:52-66 | bind binds an unbound chain end, leaves an equal concrete end alone, reports a conflict at a different concrete end, and diverges on a cycle |
| Bindings.BindCases | unification.py:60-66 | the four cases of one step: absent key inserted, variable followed, equal value a no-op, different value a conflict |
| Bindings.BindAddsAtChainEnd | unification.py:60-66 | a successful bind adds one entry at the unbound end of the chain, or changes nothing |
| Bindings.BindKeepsWf | unification.py:41-66 | binding an in-scope name to a non-variable or to the newest fresh variable keeps every variable-to-variable entry pointing up the name ranking |
| Bindings.CycleNeedsSelfLoop | unification.py:41-47 | in a well-formed store a chain can only come back on itself at a self-loop, and the name it comes back to is that self-loop's key |
| Bindings.BindDivergesIffSelfLoop | unification.py:60-64 | in a well-formed store bind diverges if and only if the chain of the name being bound runs into a self-loop, which is on a generated name |
| Bindings.SelfLoopDiverges | unification.py:63-64 | bind on a name bound to itself never terminates |
| Bindings.WalkAfterLink | unification.py:60-62 | binding the unbound end of a chain to an unbound name extends the chain to that name, or closes a cycle when the name is the end itself |
| Bindings.WalkAfterInsertElsewhere | unification.py:60-62 | binding a name that a chain does not end at leaves that chain unchanged |
| Bindings.WalkAfterSettle | unification.py:60-62 | binding the unbound end of a chain to a non-variable makes the chain end there with that value |
| Bindings.BindSettlesChain | unification.py:60-66 | after a successful bind of a name to a non-variable, the name's chain ends at that value |
| Bindings.WalkAfterGrowth | unification.py:55-57 | in a larger well-formed store a chain ends where it ended before, unless it ended unbound, and then it goes on from that end |
| Unification.LinkToFresh | unification.py:126-133 | two variables: exactly one name is minted; success only grows the store; failure is a justified `BindingsConflict` |
| Unification.Unify | unification.py:115-147 | success returns an extension of the input store with a counter no lower; every failure is justified; `TermsOfDifferentType` is never raised, and the escaping type error happens only for a constant against a complex term |
| Unification.UnifyArgs | unification.py:141-144 | the zip loop over arguments keeps the same guarantees as `Unify` |
| Unification.UnifyFixed | unification.py:145-146 | with the constructor repaired, no type error escapes and every failure is one of the four justified `CannotUnify` kinds |
| Unification.UnifyTerms | unification.py:120-121 | without a store and with the constructor repaired, the call starts empty and fails only with justified `CannotUnify` kinds |
| Unification.UnifyConstants | unification.py:123-125 | equal constants leave the store unchanged; different ones, a number against an atom included, fail with both constants in argument order |
| Unification.VarVarMatchesReference | unification.py:126-133 | two variables: a concrete end of either chain conflicts with the fresh variable; otherwise the end of the first chain, then the end of the second, is bound to the fresh variable |
| Unification.VarVarAliases | unification.py:126-133 | after a successful variable-variable unification both chains end at the same place: the unbound fresh variable, or a self-loop on it |
| Unification.LinkedChainsMeet | unification.py:131-133 | linking both chain ends to one unbound name makes the two chains end at the same place |
| Unification.SameVariableMakesSelfLoop | unification.py:126-133 | an unbound variable unified with itself ends up bound to `_n`, with `_n` bound to itself, and every later bind through it diverges |
| Unification.VarAgainstTerm | unification.py:134-137 | a variable against a non-variable, on either side, binds the variable to that term verbatim, without an occurs check |
| Unification.ShapesDifferFirst | unification.py:141-142 | complex terms with different functor or arity fail with `ComplexTermShapesDiffer` carrying both terms, whatever their arguments |
| Unification.SameShapeUnifiesArgs | unification.py:138-144 | complex terms of the same shape unify exactly as their argument sequences do |
| Unification.UnifyArgsSplit | unification.py:143-144 | argument pairs are unified left to right with one threaded store: a prefix and then the rest equals the whole, and a prefix failure is the whole failure |
| Unification.FirstFailureAborts | unification.py:143-144 | the first failing argument pair decides the result; later pairs are not visited |
| Unification.ConstantAgainstComplex | unification.py:145-146 | a constant against a complex term escapes as a type error as written, and is `TermsOfDifferentType` once repaired |
| Unification.UnifyKeepsWf | unification.py:126-144 | unifying terms whose names are in scope keeps the store well formed |
| Unification.OnlySelfLoops | unification.py:44-45 | after unifying caller-written terms from an empty store, a later bind diverges if and only if its chain runs into a self-loop, which is on a generated name |
| Unification.HeadsStayEqual | unification.py:143-144 | as later argument pairs grow the store, a concrete head stays put and two equal heads stay equal |
| Unification.AgreePersists | unification.py:143-144 | argument pairs that agree stay in agreement while later pairs grow the store |
| Unification.UnifyAgrees | unification.py:115-147 | a successful unification returns bindings under which the two terms stand for the same term, to every depth |
| Unification.UnifyArgsAgree | unification.py:141-144 | after the argument loop succeeds, every zipped argument pair agrees in the final store |
| Unification.UnifyTermsAgrees | unification.py:116-121 | `unify(a, b)` on caller-written terms returns a map under which `a` and `b` stand for the same term |
| Examples.Atoms | test_unification.py:7-10 | `8` with `8` gives `{}`; `8` with `9` fails with `ConstantsDiffer` |
| Examples.VarInstantiation | test_unification.py:13-17 | `X` with `8`, `'alf'` or `sum(2,3,5)` binds `X` to that term |
| Examples.UnifiableVars | test_unification.py:20-23 | `X` with `Y` gives `{X: _1, Y: _1}` |
| Examples.ComplexIdentical | test_unification.py:32 | identical complex terms give `{}` |
| Examples.ComplexArgumentDiffers | test_unification.py:33-34 | `foo(1,2,3)` with `foo(5,2,3)` fails with `ConstantsDiffer` |
| Examples.ComplexShapesDiffer | test_unification.py:35-36 | `foo/3` with `bar/2` fails with `ComplexTermShapesDiffer` |
| Examples.ComplexSingleBinding | test_unification.py:38 | `foo(x,2,3)` with `foo(1,2,3)` gives `{x: 1}` |
| Examples.ComplexRepeatedVariable | test_unification.py:40-43 | a repeated `x` gives `{x: 1}`; `x` against both 1 and 2 fails with `BindingsConflict` |
| Examples.ComplexArbitrary | test_unification.py:45-49 | nested arguments bind `X` to `s(g)` and `Y` to `k` |
| Examples.NestedComplexes | test_unification.py:52-53 | `foo(bar(x))` with `foo(bar(5))` gives `{x: 5}` |
| Examples.ChainedVariables | unification.py:126-137 | `x` and `y` are aliased through `_1`, which then holds 7 |
| Examples.VarVarAfterValue | unification.py:131-133 | `f(x,x)` with `f(1,y)` fails because `x` already holds 1 |
| Examples.ConflictAtGeneratedName | unification.py:63-66 | the conflict names the generated key `_1` that holds the value |
| Examples.VariableWithItself | unification.py:127-133 | `x` with `x` gives `{x: _1, _1: _1}` |
| Examples.AliasedAgain | unification.py:131-133 | aliasing `x` and `y` twice leaves the self-loop `_2 -> _2` |
| Examples.DivergesAfterSelfLoop | unification.py:60-64 | `f(x,x)` with `f(x,1)` diverges, although `{x: 1}` makes the two terms agree |
| Examples.NoOccursCheck | unification.py:134-135 | `X` with `f(X)` binds `X` to `f(X)` |
| Examples.DifferentTypesInside | unification.py:143-146 | a constant against a complex term inside arguments escapes as a type error, or is `TermsOfDifferentType` once repaired |

## Left out

- String rendering of variables, complex terms and failure messages (unification.py:90-93, 109-112; exceptions.py:10-11, 20-21, 29-30, 38-39). This is formatting built on Python `repr`. `ComplexTermShapesDiffer` keeps both whole terms, so the functor and arity its message prints can be read from them.
- Python values outside the three term shapes: `bool` counting as `int`, floats, `None`, arbitrary objects. The closed `Term` datatype admits none of them.
- The store's state after a failure. The source mutates the caller's store before raising, for example after the first of the two binds of the variable-variable case, and never rolls it back. The model returns only the failure.
- The store's `__getitem__` (unification.py:68-69). It is plain map lookup.
- Final-value resolution. It exists in the source only as a TODO (unification.py:77). `Walk`, `Head` and `Agree` are specification devices here, not source behaviour.
- Unification.UnifyAgrees: agreement is stated to every finite depth, not as equality of fully resolved terms, because without an occurs check a variable can stand for an infinite term (`X` against `f(X)`). It is proved for terms whose names are in scope of the store, which covers every caller-written term.
- Occurs check, disjunction and list terms. The source does not implement them.
- Python's recursion limit. A diverging bind raises `RecursionError` in practice; the model calls this `Diverges`. Deep terms may also exhaust the stack, which the model ignores.
- The return value of `unify` with a caller's store: the model returns the whole store, not just `vars.vars`, so that the counter can be threaded. `UnifyTerms` returns the raw mapping.

## Findings

| source | as written | input that shows it | evidently intended | confidence | as-written member | corrected member |
|---|---|---|---|---|---|---|
| exceptions.py:34 | `TermsOfDifferentType.__init__(term_a, term_b)` has no instance parameter, so `raise TermsOfDifferentType(a, b)` at unification.py:146 raises `TypeError` | `unify(1, C('g'))`, or `unify(C('f', 1), C('f', C('g')))` | raise `TermsOfDifferentType(a, b)`, a `CannotUnify` | high; not executed | Unification.ConstantAgainstComplex | Unification.UnifyFixed |
