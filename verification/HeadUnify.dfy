/** Compiled head unification: the get and unify instructions in read and write mode, the mode stack,
    and the compiler's code for a linear head pattern. */
module HeadUnify {
  import opened Cells
  import opened Terms

  /** Head patterns: atoms, voids, first occurrences of variables kept in an X register, compounds. */
  datatype Pat = PAtom(c: nat) | PVoid | PVar(x: nat) | PNode(k: Shape, args: seq<Pat>)

  datatype Instr =
    | GetAtom(c: nat, x: nat)
    | GetVar(x: nat, to: nat)
    | Get(k: Shape, x: nat)
    | UAtom(c: nat) | ULastAtom(c: nat)
    | UVoid | ULastVoid
    | UVar(x: nat) | ULastVar(x: nat)
    | Unify(k: Shape) | ULast(k: Shape)
    | Pop(n: nat)
    | UNAtoms(n: nat, c: nat)
    | UNVoids(n: nat)

  datatype Mode = Read | Write
  datatype Frame = Frame(mode: Mode, s: nat)

  /** hr and asp bound the free words; s is SREG; sp the stack of saved modes and SREGs. */
  datatype State = State(mem: seq<Cell>, hr: nat, asp: nat, x: seq<Cell>, s: nat, mode: Mode, sp: seq<Frame>)

  /** Crashed: an address out of range, a reference loop, no room, or a write past the blocks built, none of which the
      emulator survives. */
  datatype Outcome = Ok(st: State) | Failed | Crashed

  // ---------------------------------------------------------------- the instructions

  /** The header word of a new block at h; a pair has none. */
  function Header(mem: seq<Cell>, k: Shape, h: nat): (r: seq<Cell>)
    requires h < |mem|
    ensures |r| == |mem|
  {
    if k.Dot? then mem else mem[h := Fun(k.name, k.arity)]
  }

  /** Put a pointer to a new block into word a and go on in write mode. */
  function Build(st: State, k: Shape, a: nat): Outcome {
    if st.hr + Words(k) < st.asp <= |st.mem| && a < |st.mem| then
      Ok(st.(mem := Header(st.mem[a := Ptr(k, st.hr)], k, st.hr), hr := st.hr + Words(k),
             s := Base(k, st.hr), mode := Write))
    else Crashed
  }

  /** Enter the compound that d stands for: read it, or build it if d is unbound. */
  function Enter(st: State, k: Shape, d: Cell): Outcome {
    if Is(st.mem, k, d) then Ok(st.(s := Base(k, d.p), mode := Read))
    else if Unbound(st.mem, d) then Build(st, k, d.a)
    else if d.Ref? then Crashed
    else Failed
  }

  function MeetAtom(st: State, d: Cell, c: nat): Outcome {
    if d == Con(c) then Ok(st)
    else if Unbound(st.mem, d) then Ok(st.(mem := st.mem[d.a := Con(c)]))
    else if d.Ref? then Crashed
    else Failed
  }

  function SetX(st: State, x: nat, c: Cell): Outcome {
    if x < |st.x| then Ok(st.(x := st.x[x := c])) else Crashed
  }

  /** One argument that is an atom, a void or a variable, SREG left where it is. */
  function Simple(st: State, p: Pat): Outcome
    requires !p.PNode?
  {
    if st.s >= |st.mem| then Crashed
    else if st.mode == Read then
      match p
      case PAtom(c) => MeetAtom(st, DerefCell(st.mem, st.mem[st.s]), c)
      case PVoid => Ok(st)
      case PVar(x) => SetX(st, x, st.mem[st.s])
    else
      match p
      case PAtom(c) => Ok(st.(mem := st.mem[st.s := Con(c)]))
      case PVoid => Ok(st.(mem := st.mem[st.s := Ref(st.s)]))
      case PVar(x) => SetX(st.(mem := st.mem[st.s := Ref(st.s)]), x, Ref(st.s))
  }

  /** A compound argument, the mode stack left as it is. */
  function Compound(st: State, k: Shape): Outcome {
    if st.s >= |st.mem| then Crashed
    else if st.mode == Read then Enter(st, k, DerefCell(st.mem, st.mem[st.s]))
    else Build(st, k, st.s)
  }

  function Next(o: Outcome): Outcome {
    if o.Ok? then Ok(o.st.(s := o.st.s + 1)) else o
  }

  function Repeat(st: State, p: Pat, n: nat): Outcome
    requires !p.PNode?
    decreases n
  {
    if n == 0 then Ok(st)
    else
      var o := Next(Simple(st, p));
      if o.Ok? then Repeat(o.st, p, n - 1) else o
  }

  /** How many arguments at SREG an instruction goes through. */
  function Through(i: Instr): nat {
    match i
    case GetAtom(_, _) | GetVar(_, _) | Get(_, _) | Pop(_) => 0
    case UNAtoms(n, _) => n
    case UNVoids(n) => n
    case _ => 1
  }

  /** In write mode the next n words are part of a block built. */
  predicate InBlock(st: State, n: nat) {
    st.mode == Write && n > 0 ==> st.s + n <= st.hr
  }

  function Step(i: Instr, st: State): Outcome {
    if InBlock(st, Through(i)) then Do(i, st) else Crashed
  }

  function Do(i: Instr, st: State): Outcome {
    match i
    case GetAtom(c, x) => if x < |st.x| then MeetAtom(st, DerefCell(st.mem, st.x[x]), c) else Crashed
    case GetVar(x, to) => if x < |st.x| then SetX(st, to, st.x[x]) else Crashed
    case Get(k, x) => if x < |st.x| then Enter(st, k, DerefCell(st.mem, st.x[x])) else Crashed
    case UAtom(c) => Next(Simple(st, PAtom(c)))
    case ULastAtom(c) => Simple(st, PAtom(c))
    case UVoid => Next(Simple(st, PVoid))
    case ULastVoid => Simple(st, PVoid)
    case UVar(x) => Next(Simple(st, PVar(x)))
    case ULastVar(x) => Simple(st, PVar(x))
    case Unify(k) => Compound(st.(sp := [Frame(st.mode, st.s + 1)] + st.sp), k)
    case ULast(k) => Compound(st, k)
    case Pop(n) =>
      if 0 < n <= |st.sp| then Ok(st.(s := st.sp[n - 1].s, mode := st.sp[n - 1].mode, sp := st.sp[n..]))
      else Crashed
    case UNAtoms(n, c) => Repeat(st, PAtom(c), n)
    case UNVoids(n) => Repeat(st, PVoid, n)
  }

  function Exec(code: seq<Instr>, st: State): Outcome {
    if code == [] then Ok(st)
    else
      var o := Step(code[0], st);
      if o.Ok? then Exec(code[1..], o.st) else o
  }

  // ---------------------------------------------------------------- instructions that do the work of several

  function Times(i: Instr, n: nat): seq<Instr> {
    if n == 0 then [] else [i] + Times(i, n - 1)
  }

  lemma {:induction false} ExecTimes(i: Instr, n: nat, st: State)
    requires n > 0
    ensures
      var o := Step(i, st);
      Exec(Times(i, n), st) == if o.Ok? then Exec(Times(i, n - 1), o.st) else o
  {
    hide Step;
    assert ([i] + Times(i, n - 1))[1..] == Times(i, n - 1);
  }

  /** unify_n_atoms and unify_n_voids are n times the instruction for one, at any word, in either mode. */
  lemma {:induction false} RepeatedIs(p: Pat, n: nat, st: State)
    requires p.PAtom? || p.PVoid?
    ensures Step(if p.PAtom? then UNAtoms(n, p.c) else UNVoids(n), st) ==
              Exec(Times(if p.PAtom? then UAtom(p.c) else UVoid, n), st)
    decreases n
  {
    if n > 0 {
      var i := if p.PAtom? then UAtom(p.c) else UVoid;
      ExecTimes(i, n, st);
      var o := Next(Simple(st, p));
      if InBlock(st, 1) && o.Ok? {
        RepeatedIs(p, n - 1, o.st);
      } else if st.mode == Write && InBlock(st, n) {
        assert InBlock(st, 1);
      }
      if !InBlock(st, n) { RunsOver(p, n, st); }
    }
  }

  lemma {:induction false} RunsOver(p: Pat, n: nat, st: State)
    requires (p.PAtom? || p.PVoid?) && !InBlock(st, n)
    ensures Exec(Times(if p.PAtom? then UAtom(p.c) else UVoid, n), st) == Crashed
    decreases n
  {
    var i := if p.PAtom? then UAtom(p.c) else UVoid;
    ExecTimes(i, n, st);
    var o := Step(i, st);
    if o.Ok? { RunsOver(p, n - 1, o.st); }
  }

  /** pop_n is n pops. */
  lemma {:induction false} PopsAre(n: nat, st: State)
    requires n > 0
    ensures Step(Pop(n), st) == Exec(Times(Pop(1), n), st)
    decreases n
  {
    ExecTimes(Pop(1), n, st);
    if n > 1 && |st.sp| > 0 {
      var st' := st.(s := st.sp[0].s, mode := st.sp[0].mode, sp := st.sp[1..]);
      PopsAre(n - 1, st');
      if n <= |st.sp| { assert st.sp[1..][n - 2] == st.sp[n - 1] && st.sp[1..][n - 1..] == st.sp[n..]; }
    } else if n == 1 {
      assert Times(Pop(1), 0) == [];
    }
  }

  // ---------------------------------------------------------------- the compiler

  function Size(p: Pat): nat {
    if p.PNode? then 1 + SizeAll(p.args) else 1
  }

  function SizeAll(ps: seq<Pat>): nat {
    if ps == [] then 0 else Size(ps[0]) + SizeAll(ps[1..])
  }

  /** Code for one argument; the last argument of a term needs no way back and saves nothing. */
  function CompileArg(p: Pat, last: bool): seq<Instr>
    decreases p, 1
  {
    match p
    case PAtom(c) => [if last then ULastAtom(c) else UAtom(c)]
    case PVoid => [if last then ULastVoid else UVoid]
    case PVar(x) => [if last then ULastVar(x) else UVar(x)]
    case PNode(k, args) =>
      if last then [ULast(k)] + CompileArgs(args)
      else [Unify(k)] + CompileArgs(args) + [Pop(1)]
  }

  function CompileArgs(ps: seq<Pat>): seq<Instr>
    decreases ps, 0
  {
    if ps == [] then [] else CompileArg(ps[0], |ps| == 1) + CompileArgs(ps[1..])
  }

  /** Code for head argument x. */
  function CompileHead(p: Pat, x: nat): seq<Instr> {
    match p
    case PAtom(c) => [GetAtom(c, x)]
    case PVoid => []
    case PVar(to) => [GetVar(x, to)]
    case PNode(k, args) => [Get(k, x)] + CompileArgs(args)
  }

  // ---------------------------------------------------------------- what terms and stores mean

  datatype Tree = Leaf(c: nat) | Node(k: Shape, args: seq<Tree>)

  type Val = nat -> Tree

  function Args(v: Val, base: nat, n: nat): (r: seq<Tree>)
    ensures |r| == n && forall i :: 0 <= i < n ==> r[i] == v(base + i)
  {
    seq(n, i requires 0 <= i => v(base + i))
  }

  function CellVal(v: Val, mem: seq<Cell>, c: Cell): Tree {
    if c.Ref? then v(c.a)
    else if c.Con? then Leaf(c.c)
    else if IsCompound(mem, c) then
      var k := ShapeOf(mem, c);
      Node(k, Args(v, Base(k, c.p), Arity(k)))
    else Leaf(0)
  }

  predicate Live(st: State, a: nat) {
    a < |st.mem| && (a < st.hr || st.asp <= a)
  }

  predicate Sat(v: Val, mem: seq<Cell>, a: nat)
    requires a < |mem|
  {
    mem[a].Fun? || v(a) == CellVal(v, mem, mem[a])
  }

  /** v gives every word of the store the value its contents say; holes are words not yet written. */
  ghost predicate Model(st: State, holes: set<nat>, v: Val) {
    forall a: nat :: Live(st, a) && a !in holes ==> Sat(v, st.mem, a)
  }

  predicate Match(p: Pat, t: Tree)
    decreases p, 1
  {
    match p
    case PAtom(c) => t == Leaf(c)
    case PVoid => true
    case PVar(_) => true
    case PNode(k, args) => t.Node? && t.k == k && MatchAll(args, t.args)
  }

  predicate MatchAll(ps: seq<Pat>, ts: seq<Tree>)
    decreases ps, 0
  {
    |ps| == |ts| && (ps == [] || (Match(ps[0], ts[0]) && MatchAll(ps[1..], ts[1..])))
  }

  /** The variables of p name the subterms of t: register x holds the one that variable x stands for. */
  ghost predicate Holds(p: Pat, t: Tree, env: nat -> Tree)
    decreases p, 1
  {
    match p
    case PVar(x) => env(x) == t
    case PNode(k, args) => t.Node? && HoldAll(args, t.args, env)
    case _ => true
  }

  ghost predicate HoldAll(ps: seq<Pat>, ts: seq<Tree>, env: nat -> Tree)
    decreases ps, 0
  {
    |ps| == |ts| && (ps == [] || (Holds(ps[0], ts[0], env) && HoldAll(ps[1..], ts[1..], env)))
  }

  // ---------------------------------------------------------------- well-formed patterns and stores

  function Regs(p: Pat): set<nat>
    decreases p, 1
  {
    match p
    case PVar(x) => {x}
    case PNode(_, args) => RegsAll(args)
    case _ => {}
  }

  function RegsAll(ps: seq<Pat>): set<nat>
    decreases ps, 0
  {
    if ps == [] then {} else Regs(ps[0]) + RegsAll(ps[1..])
  }

  /** Every variable occurs once; every compound has the arguments its functor asks for, at least one. */
  predicate Linear(p: Pat)
    decreases p, 1
  {
    p.PNode? ==> |p.args| == Arity(p.k) && p.args != [] && LinearAll(p.args)
  }

  predicate LinearAll(ps: seq<Pat>)
    decreases ps, 0
  {
    ps == [] || (Linear(ps[0]) && LinearAll(ps[1..]) && Regs(ps[0]) !! RegsAll(ps[1..]))
  }

  /** Words of heap the pattern may build. */
  function Need(p: Pat): nat
    decreases p, 1
  {
    if p.PNode? then Words(p.k) + NeedAll(p.args) else 0
  }

  function NeedAll(ps: seq<Pat>): nat
    decreases ps, 0
  {
    if ps == [] then 0 else Need(ps[0]) + NeedAll(ps[1..])
  }

  type Rank = nat -> nat

  /** A word a term may lead to. */
  predicate Slot(st: State, holes: set<nat>, a: nat) {
    Live(st, a) && (a in holes || !st.mem[a].Fun?)
  }

  /** A reference leads to a word that is written, a compound to its functor word and arguments. */
  predicate CellOk(st: State, holes: set<nat>, c: Cell) {
    && !c.Fun? && PointsBelow(c, st.hr)
    && (c.Ref? ==> Slot(st, holes, c.a) && c.a !in holes)
    && (c.Appl? ==> Live(st, c.p) && c.p !in holes)
    && (c.Pair? || c.Appl? ==> IsCompound(st.mem, c))
    && (IsCompound(st.mem, c) ==>
          var k := ShapeOf(st.mem, c);
          forall a :: Base(k, c.p) <= a < Base(k, c.p) + Arity(k) ==> Slot(st, holes, a))
  }

  /** Whatever c leads to ranks below n. */
  ghost predicate Below(mem: seq<Cell>, c: Cell, r: Rank, n: nat) {
    && (c.Ref? ==> r(c.a) < n)
    && (IsCompound(mem, c) ==>
          var k := ShapeOf(mem, c);
          forall a :: Base(k, c.p) <= a < Base(k, c.p) + Arity(k) ==> r(a) < n)
  }

  /** The store is well formed and, by rank r, free of cycles. */
  ghost predicate Good(st: State, holes: set<nat>, r: Rank) {
    && st.hr < st.asp <= |st.mem|
    && (forall h :: h in holes ==> h < st.hr)
    && (forall a: nat :: Live(st, a) && a !in holes && !st.mem[a].Fun? ==>
          CellOk(st, holes, st.mem[a]) && (st.mem[a] == Ref(a) || Below(st.mem, st.mem[a], r, r(a))))
    && (st.mode == Read ==> holes == {})
  }
}
