/** The cost values that the scheduling searches compute with: a finite
    non-negative amount, or the positive infinity (`float('inf')`) that the
    source uses for an unrecorded setup and for "no solution". */
module Costs {
  datatype Cost = Fin(n: nat) | Inf

  /** Floating-point addition restricted to these values: infinity absorbs. */
  function Add(a: Cost, b: Cost): Cost
  {
    if a.Fin? && b.Fin? then Fin(a.n + b.n) else Inf
  }

  /** Floating-point `<`: infinity is below nothing and nothing is below itself. */
  predicate Less(a: Cost, b: Cost)
  {
    match (a, b)
    case (Fin(x), Fin(y)) => x < y
    case (Fin(_), Inf) => true
    case (Inf, _) => false
  }

  predicate Le(a: Cost, b: Cost)
  {
    !Less(b, a)
  }

  /** Python's `min(a, b)`: the first argument unless the second is strictly smaller. */
  function Min(a: Cost, b: Cost): Cost
  {
    if Less(b, a) then b else a
  }

  lemma LeTransitive(a: Cost, b: Cost, c: Cost)
    requires Le(a, b) && Le(b, c)
    ensures Le(a, c)
  {
  }

  lemma AddMonotone(a: Cost, b: Cost)
    ensures Le(a, Add(a, b))
  {
  }

  lemma AddLeBoth(a: Cost, b: Cost, c: Cost, d: Cost)
    requires Le(a, b) && Le(c, d)
    ensures Le(Add(a, c), Add(b, d))
  {
  }

  /** Bounding both terms of a sum bounds the sum, and with it anything the
      bounds add up to at most. */
  lemma SumBelow(h: Cost, a: Cost, b: Cost, c: Cost, d: Cost, total: Cost)
    requires Le(h, Add(a, c)) && Le(a, b) && Le(c, d) && Le(Add(b, d), total)
    ensures Le(h, total)
  {
    AddLeBoth(a, b, c, d);
    LeTransitive(h, Add(a, c), Add(b, d));
    LeTransitive(h, Add(b, d), total);
  }

  /** Raising a finite term raises the sum. */
  lemma AddFinBelow(h: Cost, a: Cost, x: nat, y: nat)
    requires h == Add(a, Fin(x)) && x <= y
    ensures Le(h, Add(a, Fin(y)))
  {
  }
}
