/** Compound terms on the stacks, and dereferencing. */
module Terms {
  import opened Cells

  /** What get_list and get_struct, unify_list and unify_struct differ in. */
  datatype Shape = Dot | Struct(name: nat, arity: nat)

  function Arity(k: Shape): nat { if k.Dot? then 2 else k.arity }
  function Words(k: Shape): nat { if k.Dot? then 2 else k.arity + 1 }
  function Base(k: Shape, at: nat): nat { if k.Dot? then at else at + 1 }
  function Ptr(k: Shape, at: nat): Cell { if k.Dot? then Pair(at) else Appl(at) }

  function Deref(mem: seq<Cell>, c: Cell, left: set<nat>): Cell
    decreases left
  {
    if c.Ref? && c.a < |mem| && c.a in left && mem[c.a] != c then Deref(mem, mem[c.a], left - {c.a}) else c
  }

  function Addresses(n: nat): (r: set<nat>)
    ensures forall a: nat :: a in r <==> a < n
  {
    if n == 0 then {} else Addresses(n - 1) + {n - 1}
  }

  function DerefCell(mem: seq<Cell>, c: Cell): Cell {
    Deref(mem, c, Addresses(|mem|))
  }

  predicate Unbound(mem: seq<Cell>, d: Cell) {
    d.Ref? && d.a < |mem| && mem[d.a] == d
  }

  /** A pair, or a pointer to a functor word. */
  predicate IsCompound(mem: seq<Cell>, d: Cell) {
    d.Pair? || (d.Appl? && d.p < |mem| && mem[d.p].Fun?)
  }

  function ShapeOf(mem: seq<Cell>, d: Cell): Shape
    requires IsCompound(mem, d)
  {
    if d.Pair? then Dot else Struct(mem[d.p].name, mem[d.p].arity)
  }

  predicate Is(mem: seq<Cell>, k: Shape, d: Cell) {
    IsCompound(mem, d) && ShapeOf(mem, d) == k
  }

  // ---------------------------------------------------------------- what a binding does to what words stand for

  /** From c the references of mem lead to the word at a in n steps. */
  predicate Leads(mem: seq<Cell>, c: Cell, a: nat, n: nat)
    decreases n
  {
    if n == 0 then c == Ref(a) else c.Ref? && c.a < |mem| && mem[c.a] != c && Leads(mem, mem[c.a], a, n - 1)
  }

  ghost predicate LeadsTo(mem: seq<Cell>, c: Cell, a: nat) {
    exists n: nat :: Leads(mem, c, a, n)
  }

  lemma {:induction false} LeadsOnce(mem: seq<Cell>, c: Cell, a: nat, n: nat, k: nat)
    requires a < |mem| && mem[a] == Ref(a) && Leads(mem, c, a, n) && Leads(mem, c, a, k)
    ensures n == k
    decreases n
  {
    if n > 0 && k > 0 { LeadsOnce(mem, mem[c.a], a, n - 1, k - 1); }
  }

  lemma {:induction false} DerefLeads(mem: seq<Cell>, c: Cell, a: nat, left: set<nat>)
    requires Deref(mem, c, left) == Ref(a)
    ensures LeadsTo(mem, c, a)
    decreases left
  {
    if c == Ref(a) {
      assert Leads(mem, c, a, 0);
    } else {
      DerefLeads(mem, mem[c.a], a, left - {c.a});
      var n: nat :| Leads(mem, mem[c.a], a, n);
      assert Leads(mem, c, a, n + 1);
    }
  }

  lemma {:induction false} LeadsDeref(mem: seq<Cell>, c: Cell, a: nat, n: nat, left: set<nat>)
    requires a < |mem| && mem[a] == Ref(a) && Leads(mem, c, a, n)
    requires forall x: nat, k: nat {:trigger Leads(mem, Ref(x), a, k)} :: 0 < k <= n && Leads(mem, Ref(x), a, k) ==>
      x in left
    ensures Deref(mem, c, left) == Ref(a)
    decreases n
  {
    if n > 0 {
      forall x: nat, k: nat {:trigger Leads(mem, Ref(x), a, k)} | 0 < k <= n - 1 && Leads(mem, Ref(x), a, k)
        ensures x in left - {c.a}
      {
        if x == c.a { LeadsOnce(mem, c, a, n, k); }
      }
      LeadsDeref(mem, mem[c.a], a, n - 1, left - {c.a});
    }
  }

  /** A word that does not lead to the binding stands for what it did. */
  lemma {:induction false} BindingElsewhere(mem: seq<Cell>, a: nat, v: Cell, c: Cell, left: set<nat>, left': set<nat>)
    requires a < |mem| && mem[a] == Ref(a) && !LeadsTo(mem, c, a)
    requires forall x: nat {:trigger LeadsTo(mem, Ref(x), a)} :: LeadsTo(mem, Ref(x), a) || (x in left <==> x in left')
    ensures Deref(mem[a := v], c, left') == Deref(mem, c, left)
    decreases left
  {
    if c.Ref? && c.a < |mem| {
      assert !Leads(mem, c, a, 0);
      if c.a in left && mem[c.a] != c {
        assert LeadsTo(mem, Ref(c.a), a) || (c.a in left <==> c.a in left');
        assert forall n: nat :: Leads(mem, mem[c.a], a, n) ==> Leads(mem, c, a, n + 1);
        BindingElsewhere(mem, a, v, mem[c.a], left - {c.a}, left' - {c.a});
      }
    }
  }

  /** One that does stands for what the value does. */
  lemma {:induction false} BindingHere(mem: seq<Cell>, a: nat, v: Cell, c: Cell, n: nat, left: set<nat>)
    requires a < |mem| && mem[a] == Ref(a) && Leads(mem, c, a, n) && DerefCell(mem, v) != Ref(a)
    requires forall x: nat, k: nat {:trigger Leads(mem, Ref(x), a, k)} :: k <= n && Leads(mem, Ref(x), a, k) ==>
      x in left
    requires left <= Addresses(|mem|)
    requires forall x: nat {:trigger LeadsTo(mem, Ref(x), a)} :: x < |mem| ==> x in left || LeadsTo(mem, Ref(x), a)
    ensures Deref(mem[a := v], c, left) == DerefCell(mem, v)
    decreases n
  {
    if n == 0 {
      NotThere(mem, a, v);
      assert Leads(mem, c, a, 0) && !Leads(mem, v, a, 0);
      BindingElsewhere(mem, a, v, v, Addresses(|mem|), left - {a});
    } else {
      forall x: nat, k: nat {:trigger Leads(mem, Ref(x), a, k)} | k <= n - 1 && Leads(mem, Ref(x), a, k)
        ensures x in left - {c.a}
      {
        if x == c.a { LeadsOnce(mem, c, a, n, k); }
      }
      assert LeadsTo(mem, Ref(c.a), a);
      BindingHere(mem, a, v, mem[c.a], n - 1, left - {c.a});
    }
  }

  lemma NotThere(mem: seq<Cell>, a: nat, v: Cell)
    requires a < |mem| && mem[a] == Ref(a) && DerefCell(mem, v) != Ref(a)
    ensures !LeadsTo(mem, v, a)
  {
    forall n: nat
      ensures !Leads(mem, v, a, n)
    {
      if Leads(mem, v, a, n) { LeadsInRange(mem, v, a, n); }
    }
  }

  lemma LeadsInRange(mem: seq<Cell>, c: Cell, a: nat, n: nat)
    requires a < |mem| && mem[a] == Ref(a) && Leads(mem, c, a, n)
    ensures DerefCell(mem, c) == Ref(a)
  {
    LeadsDeref(mem, c, a, n, Addresses(|mem|));
  }

  /** Binding an unbound word: all that stood for it stand for what the value stands for, and nothing else changes. */
  lemma BindingMeans(mem: seq<Cell>, a: nat, v: Cell, c: Cell)
    requires a < |mem| && mem[a] == Ref(a) && DerefCell(mem, v) != Ref(a)
    ensures DerefCell(mem[a := v], c) == if DerefCell(mem, c) == Ref(a) then DerefCell(mem, v) else DerefCell(mem, c)
  {
    if DerefCell(mem, c) == Ref(a) {
      DerefLeads(mem, c, a, Addresses(|mem|));
      var n: nat :| Leads(mem, c, a, n);
      BindingHere(mem, a, v, c, n, Addresses(|mem|));
    } else {
      NotThere(mem, a, c);
      BindingElsewhere(mem, a, v, c, Addresses(|mem|), Addresses(|mem|));
    }
  }
}
