/**
 * Boolean combinators of examples/logic.ts. Each is a conditional type over the
 * literal types `true` and `false`; `Or` is built from `Not` and `And` by De Morgan's law.
 */
module Logic {

  /** `T extends true ? false : true` */
  function Not(b: bool): (r: bool)
    ensures r == !b
  {
    if b then false else true
  }

  /** True only when the first argument is `true` and then the second is `true` too. */
  function And(a: bool, b: bool): (r: bool)
    ensures r == (a && b)
  {
    if a then (if b then true else false) else false
  }

  /** `Not<And<Not<A>, Not<B>>>` */
  function Or(a: bool, b: bool): (r: bool)
    ensures r == (a || b)
  {
    Not(And(Not(a), Not(b)))
  }

  lemma NotInvolution(b: bool)
    ensures Not(Not(b)) == b
  {
  }

  lemma AndCommutes(a: bool, b: bool)
    ensures And(a, b) == And(b, a)
  {
  }

  /** The dual of the law that defines `Or`. */
  lemma DeMorgan(a: bool, b: bool)
    ensures Not(And(a, b)) == Or(Not(a), Not(b))
    ensures Not(Or(a, b)) == And(Not(a), Not(b))
  {
  }

  /** The truth tables that the scratch pad asserts for `And` and `Or`. */
  lemma TruthTables()
    ensures And(true, true) && !And(false, true) && !And(true, false) && !And(false, false)
    ensures Or(true, true) && Or(false, true) && Or(true, false) && !Or(false, false)
  {
  }
}
