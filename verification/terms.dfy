/**
  The term algebra that unification works over: constants, logic variables and
  complex terms (a functor applied to an ordered sequence of arguments).
 */
module Terms {

  /** A constant is either a number (an integer) or an atom (a string).
      A number never equals an atom, whatever their spellings. */
  datatype Const = Num(n: int) | Atom(s: string)

  /** Variable names. `User(x)` is a name chosen by the caller; `Gen(i)` is the
      name `_i` that the binding store mints on its i-th fresh-variable request.
      Modelling assumption: no caller-chosen name is spelled `_` followed by
      decimal digits, so the two kinds never collide. */
  datatype Name = User(user: string) | Gen(id: nat)

  /** A term. Arity of a complex term is the length of its argument sequence. */
  datatype Term =
    | K(c: Const)
    | Var(name: Name)
    | Cmp(functor: string, args: seq<Term>)

  // Shape classification

  predicate IsAtom(t: Term) {
    t.K? && t.c.Atom?
  }

  predicate IsNumber(t: Term) {
    t.K? && t.c.Num?
  }

  predicate IsConstant(t: Term) {
    IsAtom(t) || IsNumber(t)
  }

  predicate IsVariable(t: Term) {
    t.Var?
  }

  predicate IsComplex(t: Term) {
    t.Cmp?
  }

  /** Every term has exactly one of the three shapes, and a constant is exactly
      one of a number or an atom. */
  lemma ShapesPartition(t: Term)
    ensures IsConstant(t) || IsVariable(t) || IsComplex(t)
    ensures !(IsConstant(t) && IsVariable(t))
    ensures !(IsConstant(t) && IsComplex(t))
    ensures !(IsVariable(t) && IsComplex(t))
    ensures IsConstant(t) ==> (IsAtom(t) <==> !IsNumber(t))
  {
  }

  function Arity(t: Term): nat
    requires IsComplex(t)
  {
    |t.args|
  }

  // Equality as the term classes define it: a variable equals a variable of the
  // same name; a complex term equals a complex term with the same functor and
  // pairwise-equal arguments; a constant equals the same constant.

  predicate Equal(a: Term, b: Term)
    decreases a
  {
    match a
    case K(x) => b.K? && b.c == x
    case Var(n) => b.Var? && b.name == n
    case Cmp(f, xs) => b.Cmp? && b.functor == f && ArgsEqual(xs, b.args)
  }

  /** Tuple equality: same length and pairwise-equal elements. */
  predicate ArgsEqual(xs: seq<Term>, ys: seq<Term>)
    decreases xs
  {
    |xs| == |ys| && forall i | 0 <= i < |xs| :: Equal(xs[i], ys[i])
  }

  /** The class-defined equality is exactly identity of term values, so the
      model may compare terms with `==`. */
  lemma {:induction false} EqualIsIdentity(a: Term, b: Term)
    ensures Equal(a, b) <==> a == b
    decreases a
  {
    match a
    case K(_) =>
    case Var(_) =>
    case Cmp(f, xs) =>
      if b.Cmp? {
        ArgsEqualIsIdentity(xs, b.args);
      }
  }

  lemma {:induction false} ArgsEqualIsIdentity(xs: seq<Term>, ys: seq<Term>)
    ensures ArgsEqual(xs, ys) <==> xs == ys
    decreases xs
  {
    if |xs| == |ys| {
      forall i | 0 <= i < |xs|
        ensures Equal(xs[i], ys[i]) <==> xs[i] == ys[i]
      {
        EqualIsIdentity(xs[i], ys[i]);
      }
    }
  }

  // Names in scope of a store that has minted `g` fresh names

  /** A caller-chosen name, or one of the names `_1` .. `_g` minted so far. */
  predicate InScope(n: Name, g: nat) {
    n.Gen? ==> 1 <= n.id <= g
  }

  /** Every variable occurring in `t` is in scope. */
  predicate NamesWithin(t: Term, g: nat)
    decreases t
  {
    match t
    case K(_) => true
    case Var(n) => InScope(n, g)
    case Cmp(_, xs) => forall i | 0 <= i < |xs| :: NamesWithin(xs[i], g)
  }

  /** Minting more names keeps every earlier name in scope. */
  lemma {:induction false} NamesWithinGrow(t: Term, g: nat, g': nat)
    requires g <= g'
    requires NamesWithin(t, g)
    ensures NamesWithin(t, g')
    decreases t
  {
    match t
    case K(_) =>
    case Var(_) =>
    case Cmp(_, xs) =>
      forall i | 0 <= i < |xs|
        ensures NamesWithin(xs[i], g')
      {
        NamesWithinGrow(xs[i], g, g');
      }
  }

  /** A term written by a caller: it mentions no generated name. */
  predicate UserTerm(t: Term) {
    NamesWithin(t, 0)
  }
}
