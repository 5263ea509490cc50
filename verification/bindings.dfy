/**
  The binding store: a map from variable names to terms plus a counter of the
  fresh names minted so far. A variable may be bound to another variable, so
  names form chains; binding a name binds the end of its chain.
 */
module Bindings {
  import opened Terms
  import opened Errors

  type Vars = map<Name, Term>

  /** `generated` is the number of fresh names minted so far. */
  datatype Store = Store(vars: Vars, generated: nat)

  /** The store a unification starts from when the caller supplies none. */
  const Empty: Store := Store(map[], 0)

  /** `big` keeps every entry of `small` unchanged. */
  predicate Extends(big: Vars, small: Vars) {
    forall k | k in small :: k in big && big[k] == small[k]
  }

  // Fresh names

  /** The names `_1` .. `_g` minted so far. */
  function Minted(s: Store): set<Name> {
    set i: nat | 1 <= i <= s.generated :: Gen(i)
  }

  /** Mints the next fresh name `_(g+1)`: one never minted before, after which
      the minted names are the earlier ones plus this one. */
  function New(s: Store): (r: (Store, Name))
    ensures r.1 !in Minted(s)
    ensures Minted(r.0) == Minted(s) + {r.1}
    ensures r.0.vars == s.vars
  {
    var t := Gen(s.generated + 1);
    var s' := Store(s.vars, s.generated + 1);
    assert Minted(s') == Minted(s) + {t} by {
      forall n | n in Minted(s') ensures n in Minted(s) + {t} {
        if n != t {
          assert n.id <= s.generated;
        }
      }
    }
    (s', t)
  }

  // Where a chain of variable-to-variable bindings ends

  datatype ChainEnd =
      /** The chain stops at a name that has no binding. */
    | Unbound(key: Name)
      /** The chain stops at a name bound to a non-variable term. */
    | BoundTo(key: Name, value: Term)
      /** The chain comes back to the name `at`, which it has already passed. */
    | Cycle(at: Name)

  /** Follows variable-to-variable bindings from `n`, having already passed the
      names in `seen`. */
  function Walk(m: Vars, n: Name, seen: set<Name>): (e: ChainEnd)
    ensures e.Unbound? ==> e.key !in m
    ensures e.BoundTo? ==> e.key in m && m[e.key] == e.value && !e.value.Var?
    ensures e.Cycle? ==> e.at in seen || e.at in m
    decreases m.Keys - seen
  {
    if n in seen then Cycle(n)
    else if n !in m then Unbound(n)
    else if m[n].Var? then Walk(m, m[n].name, seen + {n})
    else BoundTo(n, m[n])
  }

  /** What binding a chain to `value` does, decided by where the chain ends:
      an unbound end is bound, an equal concrete end is left alone, a different
      concrete end is a conflict. */
  function SettleAt(m: Vars, e: ChainEnd, value: Term): Outcome<Vars> {
    match e
    case Unbound(k) => Ok(m[k := value])
    case BoundTo(k, t) => if t == value then Ok(m) else Fail(BindingsConflict(k, t, value))
    case Cycle(_) => Diverges
  }

  // bind

  /** Binds `n` to `value`, following `n`'s chain. A call that comes back to a
      name already in `seen` is the same call on the same store as before, so
      the recursion would never end. */
  function BindFrom(m: Vars, n: Name, value: Term, seen: set<Name>): (r: Outcome<Vars>)
    ensures r.Ok? ==> Extends(r.value, m)
    ensures r.Ok? ==> forall k | k in r.value && k !in m :: r.value[k] == value
    ensures r.Fail? ==> && r.error.BindingsConflict?
                        && r.error.varName in m
                        && m[r.error.varName] == r.error.existingValue
                        && !r.error.existingValue.Var?
                        && r.error.existingValue != value
                        && r.error.conflictingValue == value
    ensures !r.CtorTypeError?
    decreases m.Keys - seen
  {
    if n in seen then Diverges
    else if n !in m then Ok(m[n := value])
    else if m[n].Var? then BindFrom(m, m[n].name, value, seen + {n})
    else if m[n] != value then Fail(BindingsConflict(n, m[n], value))
    else Ok(m)
  }

  function Bind(m: Vars, n: Name, value: Term): Outcome<Vars> {
    BindFrom(m, n, value, {})
  }

  /** bind decides everything at the end of the chain. */
  lemma {:induction false} BindIsWalk(m: Vars, n: Name, value: Term, seen: set<Name>)
    ensures BindFrom(m, n, value, seen) == SettleAt(m, Walk(m, n, seen), value)
    decreases m.Keys - seen
  {
    if n !in seen && n in m && m[n].Var? {
      BindIsWalk(m, m[n].name, value, seen + {n});
    }
  }

  /** The four cases of one bind step. */
  lemma BindCases(m: Vars, n: Name, value: Term)
    ensures n !in m ==> Bind(m, n, value) == Ok(m[n := value])
    ensures n in m && m[n].Var? ==> Bind(m, n, value) == BindFrom(m, m[n].name, value, {n})
    ensures n in m && !m[n].Var? && m[n] == value ==> Bind(m, n, value) == Ok(m)
    ensures n in m && !m[n].Var? && m[n] != value
            ==> Bind(m, n, value) == Fail(BindingsConflict(n, m[n], value))
  {
    assert {} + {n} == {n};
  }

  /** A successful bind adds at most one entry, at the end of the chain. */
  lemma BindAddsAtChainEnd(m: Vars, n: Name, value: Term)
    requires Bind(m, n, value).Ok?
    ensures Walk(m, n, {}).Unbound? ==> Bind(m, n, value).value == m[Walk(m, n, {}).key := value]
    ensures Walk(m, n, {}).BoundTo? ==> Bind(m, n, value).value == m
  {
    BindIsWalk(m, n, value, {});
  }

  // The shape of stores that unification builds

  /** User names rank below every generated name; `_i` ranks i. */
  function Rank(n: Name): nat {
    match n
    case User(_) => 0
    case Gen(i) => i
  }

  /** Every key is in scope, and every variable-to-variable entry points at an
      in-scope generated name that ranks at least as high as its key. */
  predicate WfVars(m: Vars, g: nat) {
    forall k | k in m ::
      && InScope(k, g)
      && (m[k].Var? ==> m[k].name.Gen? && InScope(m[k].name, g) && Rank(k) <= Rank(m[k].name))
  }

  predicate Wf(s: Store) {
    WfVars(s.vars, s.generated)
  }

  lemma WfVarsGrow(m: Vars, g: nat, g': nat)
    requires g <= g' && WfVars(m, g)
    ensures WfVars(m, g')
  {
  }

  /** In a well-formed store the next fresh name is neither a key nor the
      target of any variable-to-variable entry. */
  lemma NewIsUnused(s: Store)
    requires Wf(s)
    ensures New(s).1 !in s.vars
    ensures forall k | k in s.vars :: s.vars[k] != Var(New(s).1)
  {
  }

  /** A chain from an in-scope name ends at an in-scope name. */
  lemma {:induction false} WalkStaysInScope(m: Vars, g: nat, n: Name, seen: set<Name>)
    requires WfVars(m, g) && InScope(n, g)
    ensures Walk(m, n, seen).Unbound? ==> InScope(Walk(m, n, seen).key, g)
    ensures Walk(m, n, seen).BoundTo? ==> InScope(Walk(m, n, seen).key, g)
    decreases m.Keys - seen
  {
    if n !in seen && n in m && m[n].Var? {
      WalkStaysInScope(m, g, m[n].name, seen + {n});
    }
  }

  /** Binding an in-scope name to a non-variable, or to the newest minted name,
      keeps the store well formed. */
  lemma BindKeepsWf(m: Vars, g: nat, n: Name, value: Term)
    requires WfVars(m, g) && InScope(n, g)
    requires value.Var? ==> value.name == Gen(g) && g >= 1
    ensures Bind(m, n, value).Ok? ==> WfVars(Bind(m, n, value).value, g)
  {
    BindIsWalk(m, n, value, {});
    WalkStaysInScope(m, g, n, {});
  }

  predicate IsSelfLoop(m: Vars, k: Name) {
    k in m && m[k] == Var(k)
  }

  /** In a well-formed store, a chain that passes only names ranked below its
      current name can come back on itself only at a self-loop, and the name
      it comes back to is that self-loop's key. */
  lemma {:induction false} CycleNeedsSelfLoop(m: Vars, g: nat, n: Name, seen: set<Name>)
    requires WfVars(m, g)
    requires forall k | k in seen :: Rank(k) < Rank(n)
    requires Walk(m, n, seen).Cycle?
    ensures IsSelfLoop(m, Walk(m, n, seen).at)
    decreases m.Keys - seen
  {
    assert n !in seen;
    assert n in m && m[n].Var?;
    var next := m[n].name;
    if next == n {
      assert Walk(m, n, seen) == Walk(m, n, seen + {n}) == Cycle(n);
    } else {
      assert Rank(n) < Rank(next);
      CycleNeedsSelfLoop(m, g, next, seen + {n});
    }
  }

  /** In a well-formed store a bind diverges exactly when the chain of the
      name being bound runs into a self-loop `_i -> _i`. */
  lemma BindDivergesIffSelfLoop(s: Store, n: Name, value: Term)
    requires Wf(s)
    ensures Bind(s.vars, n, value).Diverges?
            <==> Walk(s.vars, n, {}).Cycle? && IsSelfLoop(s.vars, Walk(s.vars, n, {}).at)
    ensures Bind(s.vars, n, value).Diverges? ==> Walk(s.vars, n, {}).at.Gen?
  {
    BindIsWalk(s.vars, n, value, {});
    if Walk(s.vars, n, {}).Cycle? {
      CycleNeedsSelfLoop(s.vars, s.generated, n, {});
    }
  }

  /** A bind at a key bound to itself diverges. */
  lemma SelfLoopDiverges(m: Vars, k: Name, value: Term)
    requires IsSelfLoop(m, k)
    ensures Bind(m, k, value) == Diverges
  {
    assert BindFrom(m, k, value, {}) == BindFrom(m, k, value, {k});
  }

  // How chains change when an unbound chain end gets bound

  /** Linking the unbound end `k` of a chain to a name `t` that has no binding
      extends the chain to end at `t`; linking it to itself closes a cycle. */
  lemma {:induction false} WalkAfterLink(m: Vars, n: Name, seen: set<Name>, k: Name, t: Name)
    requires seen <= m.Keys
    requires Walk(m, n, seen) == Unbound(k)
    requires t !in m || t == k
    ensures Walk(m[k := Var(t)], n, seen) == if t == k then Cycle(k) else Unbound(t)
    decreases m.Keys - seen
  {
    var m' := m[k := Var(t)];
    if n !in m {
      assert n == k;
      assert Walk(m', n, seen) == Walk(m', t, seen + {k});
    } else {
      assert m'[n] == m[n];
      WalkAfterLink(m, m[n].name, seen + {n}, k, t);
    }
  }

  /** Binding a name that no chain from `n` ends at leaves that chain alone. */
  lemma {:induction false} WalkAfterInsertElsewhere(m: Vars, n: Name, seen: set<Name>, k: Name, v: Term)
    requires k !in m
    requires Walk(m, n, seen) != Unbound(k)
    ensures Walk(m[k := v], n, seen) == Walk(m, n, seen)
    decreases m.Keys - seen
  {
    if n !in seen && n in m && m[n].Var? {
      WalkAfterInsertElsewhere(m, m[n].name, seen + {n}, k, v);
    }
  }

  /** Binding the unbound end `k` of a chain to a non-variable `v` makes the
      chain end at `k`, holding `v`. */
  lemma {:induction false} WalkAfterSettle(m: Vars, n: Name, seen: set<Name>, k: Name, v: Term)
    requires Walk(m, n, seen) == Unbound(k)
    requires !v.Var?
    ensures Walk(m[k := v], n, seen) == BoundTo(k, v)
    decreases m.Keys - seen
  {
    if n in m {
      WalkAfterSettle(m, m[n].name, seen + {n}, k, v);
    }
  }

  /** After a successful bind of `n` to a non-variable, `n`'s chain ends at
      that value, at the key where it ended before. */
  lemma BindSettlesChain(m: Vars, n: Name, v: Term)
    requires !v.Var? && Bind(m, n, v).Ok?
    ensures !Walk(m, n, {}).Cycle?
    ensures Walk(Bind(m, n, v).value, n, {}) == BoundTo(Walk(m, n, {}).key, v)
  {
    BindIsWalk(m, n, v, {});
    if Walk(m, n, {}).Unbound? {
      WalkAfterSettle(m, n, {}, Walk(m, n, {}).key, v);
    }
  }

  // How chains change when the store grows

  /** In a well-formed store the names a chain has passed below its current
      rank cannot be met again, so they do not affect where it ends. */
  lemma {:induction false} WalkDropLowSeen(m: Vars, g: nat, n: Name, seen: set<Name>)
    requires WfVars(m, g)
    requires forall k | k in seen :: Rank(k) < Rank(n)
    ensures Walk(m, n, seen) == Walk(m, n, {})
    decreases g - Rank(n)
  {
    assert n !in seen;
    if n in m && m[n].Var? {
      var next := m[n].name;
      if next == n {
        assert Walk(m, n, seen) == Walk(m, n, seen + {n});
        assert Walk(m, n, {}) == Walk(m, n, {n});
      } else {
        assert Rank(n) < Rank(next) <= g;
        WalkDropLowSeen(m, g, next, seen + {n});
        assert {} + {n} == {n};
        WalkDropLowSeen(m, g, next, {n});
      }
    }
  }

  /** A chain that ends at a concrete value or in a cycle uses only entries
      that a larger store keeps, so it ends the same way there. */
  lemma {:induction false} WalkPersists(m: Vars, m': Vars, n: Name, seen: set<Name>)
    requires Extends(m', m)
    requires !Walk(m, n, seen).Unbound?
    ensures Walk(m', n, seen) == Walk(m, n, seen)
    decreases m.Keys - seen
  {
    if n !in seen && n in m && m[n].Var? {
      WalkPersists(m, m', m[n].name, seen + {n});
    }
  }

  /** In a larger well-formed store, a chain that used to end unbound at `k`
      continues from `k`. */
  lemma {:induction false} WalkContinues(m: Vars, m': Vars, g: nat, n: Name, seen: set<Name>, k: Name)
    requires Extends(m', m) && WfVars(m', g)
    requires forall p | p in seen :: Rank(p) < Rank(n)
    requires Walk(m, n, seen) == Unbound(k)
    ensures Walk(m', n, seen) == Walk(m', k, {})
    decreases m.Keys - seen
  {
    assert n !in seen;
    if n !in m {
      WalkDropLowSeen(m', g, n, seen);
    } else {
      var next := m[n].name;
      assert m'[n] == m[n];
      if next == n {
        assert false;
      } else {
        assert Rank(n) < Rank(next);
        WalkContinues(m, m', g, next, seen + {n}, k);
      }
    }
  }

  /** From the empty path: in a larger well-formed store a chain ends where it
      ended before, unless it ended unbound, in which case it goes on from
      that end. */
  lemma WalkAfterGrowth(m: Vars, m': Vars, g: nat, n: Name)
    requires Extends(m', m) && WfVars(m', g)
    ensures Walk(m, n, {}).Unbound? ==> Walk(m', n, {}) == Walk(m', Walk(m, n, {}).key, {})
    ensures !Walk(m, n, {}).Unbound? ==> Walk(m', n, {}) == Walk(m, n, {})
  {
    if Walk(m, n, {}).Unbound? {
      WalkContinues(m, m', g, n, {}, Walk(m, n, {}).key);
    } else {
      WalkPersists(m, m', n, {});
    }
  }
}
