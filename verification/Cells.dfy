/** Tagged machine words of the stacks, and the address space they live in. */
module Cells {

  /** A cell is a reference (an unbound variable refers to itself), an atom or small integer, a pair
      or application pointer, or a functor header word. */
  datatype Cell =
    | Ref(a: nat)
    | Con(c: nat)
    | Pair(p: nat)
    | Appl(p: nat)
    | Fun(name: nat, arity: nat)

  /** Pair and application pointers lead below h, the top of the global stack. */
  predicate PointsBelow(c: Cell, h: nat) {
    (c.Pair? || c.Appl?) ==> c.p < h
  }
}
