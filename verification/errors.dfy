/**
  The failure kinds of unification and the outcome of a store operation.
 */
module Errors {
  import opened Terms

  /** The four kinds of "cannot unify" failure; being variants of one datatype
      makes every kind a case of the one failure category. */
  datatype CannotUnify =
      /** Both terms are constants and they differ; carries both, in argument order. */
    | ConstantsDiffer(constA: Const, constB: Const)
      /** The chain key `varName` already holds the concrete `existingValue`,
          which differs from `conflictingValue`. */
    | BindingsConflict(varName: Name, existingValue: Term, conflictingValue: Term)
      /** Two complex terms whose functors or arities differ. */
    | ComplexTermShapesDiffer(complexA: Term, complexB: Term)
      /** A constant against a complex term, in either order. */
    | TermsOfDifferentType(termA: Term, termB: Term)

  /** What a failure of each kind says about the values it carries: the
      constants differ; the existing value is concrete and differs from the
      new one; the complex terms differ in functor or arity; the terms are a
      constant and a complex term. */
  predicate Justified(e: CannotUnify) {
    match e
    case ConstantsDiffer(x, y) => x != y
    case BindingsConflict(_, v, w) => !v.Var? && v != w
    case ComplexTermShapesDiffer(a, b) =>
      IsComplex(a) && IsComplex(b) && (a.functor != b.functor || Arity(a) != Arity(b))
    case TermsOfDifferentType(a, b) =>
      (IsConstant(a) && IsComplex(b)) || (IsComplex(a) && IsConstant(b))
  }

  /** Result of an operation that threads a binding store.
      - `Ok(value)`: it returned normally;
      - `Fail(error)`: it raised a `CannotUnify`;
      - `Diverges`: it re-entered a chain-following step with an unchanged
        store, so it would recurse forever;
      - `CtorTypeError(a, b)`: it tried to raise `TermsOfDifferentType(a, b)`,
        whose constructor does not accept the instance argument, so a
        `TypeError` escaped instead. */
  datatype Outcome<+T> =
    | Ok(value: T)
    | Fail(error: CannotUnify)
    | Diverges
    | CtorTypeError(termA: Term, termB: Term)
  {
    predicate IsFailure() {
      !Ok?
    }

    function PropagateFailure<U>(): (r: Outcome<U>)
      requires !Ok?
    {
      match this
      case Fail(e) => Fail(e)
      case Diverges => Diverges
      case CtorTypeError(a, b) => CtorTypeError(a, b)
    }

    function Extract(): T
      requires Ok?
    {
      value
    }
  }
}
