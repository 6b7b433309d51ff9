/** Small shared definitions. */
module Wrappers {

  datatype Option<+T> = None | Some(value: T) {
    predicate IsFailure() { None? }
    function PropagateFailure<U>(): Option<U>
      requires None?
    {
      None
    }
    function Extract(): T
      requires Some?
    {
      value
    }
  }

  function Min(a: int, b: int): int { if a < b then a else b }

  /** The numbers below n. */
  function Below(n: nat): (b: set<nat>)
    ensures |b| == n && forall r: nat :: r in b <==> r < n
  {
    if n == 0 then {} else Below(n - 1) + {n - 1}
  }
}
