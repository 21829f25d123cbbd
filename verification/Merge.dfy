/** The assembler's merged instructions mean what the pseudo-instructions they replace mean.

    What unifying two bound terms does is left to a parameter: both forms hand it the same two words. */
module Merge {
  import opened Cells
  import opened Terms
  import opened HeadUnify

  /** The first block is the pseudo-instructions, each as it is when nothing is merged; v and y number temporary and
      permanent variables, x argument registers. A last argument that is void goes into scratch register 0. The second
      block is what runs of them are merged into. */
  datatype Instr =
    | GetAtom(c: nat, x: nat) | PutAtom(c: nat, x: nat)
    | GetVarX(v: nat, x: nat) | PutValX(v: nat, x: nat) | GetValX(v: nat, x: nat)
    | GetVarY(y: nat, x: nat) | PutValY(y: nat, x: nat) | GetValY(y: nat, x: nat)
    | GetList(x: nat)
    | UAtom(c: nat) | UVoid | UVarX(v: nat) | UValX(v: nat) | UValY(y: nat)
    | ULastVoid | ULastVarX(v: nat) | ULastVarY(y: nat) | ULastValX(v: nat) | ULastValY(y: nat)
    | WriteAtom(c: nat)
    | GetAtoms(cs: seq<nat>)
    | PutXXVal(l1: nat, r1: nat, l2: nat, r2: nat) | UnifyXX(l: nat, r: nat)
    | PutYVals(y1: nat, x1: nat, y2: nat, x2: nat) | GetYYVar(y1: nat, x1: nat, y2: nat, x2: nat)
    | UNAtoms(n: nat, c: nat) | WriteNAtoms(n: nat, c: nat) | UNVoids(n: nat) | ULNVoids(n: nat)
    | UVarX2(l: nat, r: nat) | ULVarX2(l: nat, r: nat)
    | GListValX(x: nat, v: nat) | GListValY(x: nat, y: nat)
    | GlVoidVarX(x: nat, v: nat) | GlVoidVarY(x: nat, y: nat) | GlVoidValX(x: nat, v: nat) | GlVoidValY(x: nat, y: nat)

  type Code = seq<Instr>

  datatype Unified = Yes(mem: seq<Cell>) | No

  type Unifier = (seq<Cell>, nat, Cell, Cell) -> Unified

  // ---------------------------------------------------------------- the emulator

  function Unify(u: Unifier, st: State, c: Cell, d: Cell): Outcome {
    var r := u(st.mem, st.hr, c, d);
    if r.Yes? then Ok(st.(mem := r.mem)) else Failed
  }

  /** Permanent variable y is in an environment on the local stack. */
  predicate Slot(st: State, env: nat, y: nat) {
    st.hr < st.asp <= env && env + y < |st.mem|
  }

  /** Dereferencing for get_list; a reference to a word not in use is no valid term. */
  function ListArg(st: State, x: nat): (bool, Cell) {
    var d := if x < |st.x| then DerefCell(st.mem, st.x[x]) else Con(0);
    (x < |st.x| && !(d.Ref? && st.hr <= d.a < st.asp), d)
  }

  function SetY(st: State, env: nat, y: nat, c: Cell): Outcome {
    if Slot(st, env, y) then Ok(st.(mem := st.mem[env + y := c])) else Crashed
  }

  /** A value in a list or structure: unified in read mode, written in write mode. */
  function Value(u: Unifier, st: State, c: Cell): Outcome {
    if st.s >= |st.mem| then Crashed
    else if st.mode == Read then Unify(u, st, st.mem[st.s], c)
    else Ok(st.(mem := st.mem[st.s := c]))
  }

  function Y(st: State, env: nat, y: nat): Cell {
    if env + y < |st.mem| then st.mem[env + y] else Con(0)
  }

  /** get_atom over registers 1, 2 and on. */
  function Atoms(st: State, cs: seq<nat>, x: nat): Outcome
    decreases |cs|
  {
    if cs == [] then Ok(st)
    else
      var o := if x < |st.x| then MeetAtom(st, DerefCell(st.mem, st.x[x]), cs[0]) else Crashed;
      if o.Ok? then Atoms(o.st, cs[1..], x + 1) else o
  }

  /** n words from SREG on become variables. */
  function Voids(st: State, n: nat): Outcome
    decreases n
  {
    if n == 0 then Ok(st)
    else if st.s >= |st.mem| then Crashed
    else Voids(st.(mem := st.mem[st.s := Ref(st.s)], s := st.s + 1), n - 1)
  }

  function WriteAtoms(st: State, n: nat, c: nat): Outcome
    decreases n
  {
    if n == 0 then Ok(st)
    else if st.s >= |st.mem| then Crashed
    else WriteAtoms(st.(mem := st.mem[st.s := Con(c)], s := st.s + 1), n - 1, c)
  }

  /** A new pair [h|t] for the variable at a; get_list's merged forms leave SREG and the mode alone. */
  function NewPair(st: State, a: nat, h: Cell, t: Cell): Outcome {
    if st.hr + 2 < st.asp <= |st.mem| && a < |st.mem| then
      Ok(st.(mem := st.mem[a := Pair(st.hr)][st.hr := h][st.hr + 1 := t], hr := st.hr + 2))
    else Crashed
  }

  function PairArg(st: State, d: Cell): bool {
    d.Pair? && d.p + 1 < |st.mem|
  }

  function NoList(d: Cell): Outcome {
    if d.Ref? then Crashed else Failed
  }

  predicate BothBound(mem: seq<Cell>, c: Cell, d: Cell) {
    !DerefCell(mem, c).Ref? && !DerefCell(mem, d).Ref?
  }

  /** The address of the last word a reference chain leads to: derefa_body's pt0. */
  function LastRef(mem: seq<Cell>, c: Cell, at: nat, left: set<nat>): nat
    decreases left
  {
    if c.Ref? && c.a < |mem| && c.a in left && mem[c.a] != c then LastRef(mem, mem[c.a], c.a, left - {c.a}) else at
  }

  function Step(u: Unifier, env: nat, i: Instr, st: State): Outcome {
    match i
    case GetAtom(c, x) => if x < |st.x| then MeetAtom(st, DerefCell(st.mem, st.x[x]), c) else Crashed
    case PutAtom(c, x) => SetX(st, x, Con(c))
    case GetVarX(v, x) => if x < |st.x| then SetX(st, v, st.x[x]) else Crashed
    case PutValX(v, x) => if v < |st.x| then SetX(st, x, st.x[v]) else Crashed
    case GetValX(v, x) =>
      var l, r := if v < x then v else x, if v < x then x else v;
      if r < |st.x| then Unify(u, st, st.x[l], st.x[r]) else Crashed
    case GetVarY(y, x) => if x < |st.x| then SetY(st, env, y, st.x[x]) else Crashed
    case PutValY(y, x) => if Slot(st, env, y) then SetX(st, x, Y(st, env, y)) else Crashed
    case GetValY(y, x) => if Slot(st, env, y) && x < |st.x| then Unify(u, st, Y(st, env, y), st.x[x]) else Crashed
    case GetList(x) => var (ok, d) := ListArg(st, x); if ok then Enter(st, Dot, d) else Crashed
    case UAtom(c) => Next(Simple(st, PAtom(c)))
    case UVoid => Next(Simple(st, PVoid))
    case UVarX(v) => Next(Simple(st, PVar(v)))
    case UValX(v) => if v < |st.x| then Next(Value(u, st, st.x[v])) else Crashed
    case UValY(y) => if Slot(st, env, y) then Next(Value(u, st, Y(st, env, y))) else Crashed
    case ULastVoid => Simple(st, PVar(0))
    case ULastVarX(v) => Simple(st, PVar(v))
    case ULastVarY(y) =>
      if st.s >= |st.mem| then Crashed
      else if st.mode == Read then SetY(st, env, y, st.mem[st.s])
      else SetY(st.(mem := st.mem[st.s := Ref(st.s)]), env, y, Ref(st.s))
    case ULastValX(v) => if v < |st.x| then Value(u, st, st.x[v]) else Crashed
    case ULastValY(y) => if Slot(st, env, y) then Value(u, st, Y(st, env, y)) else Crashed
    case WriteAtom(c) => if st.s < |st.mem| then Ok(st.(mem := st.mem[st.s := Con(c)], s := st.s + 1)) else Crashed
    case GetAtoms(cs) => Atoms(st, cs, 1)
    case PutXXVal(l1, r1, l2, r2) =>
      if l1 < |st.x| && l2 < |st.x| && r1 < |st.x| && r2 < |st.x| then
        Ok(st.(x := st.x[r1 := st.x[l1]][r2 := st.x[l2]]))
      else Crashed
    case UnifyXX(l, r) => if l < |st.x| && r < |st.x| then Unify(u, st, st.x[l], st.x[r]) else Crashed
    case PutYVals(y1, x1, y2, x2) =>
      if Slot(st, env, y1) && Slot(st, env, y2) && x1 < |st.x| && x2 < |st.x| then
        Ok(st.(x := st.x[x1 := Y(st, env, y1)][x2 := Y(st, env, y2)]))
      else Crashed
    case GetYYVar(y1, x1, y2, x2) =>
      if Slot(st, env, y1) && Slot(st, env, y2) && x1 < |st.x| && x2 < |st.x| then
        Ok(st.(mem := st.mem[env + y1 := st.x[x1]][env + y2 := st.x[x2]]))
      else Crashed
    case UNAtoms(n, c) => if st.mode == Read then Repeat(st, PAtom(c), n) else WriteAtoms(st, n, c)
    case WriteNAtoms(n, c) => WriteAtoms(st, n, c)
    case UNVoids(n) =>
      if st.mode == Read then (if st.s + n <= |st.mem| then Ok(st.(s := st.s + n)) else Crashed) else Voids(st, n)
    case ULNVoids(n) => if st.mode == Read then Ok(st) else Voids(st, n)
    case UVarX2(l, r) => Pair2(st, l, r, true)
    case ULVarX2(l, r) => Pair2(st, l, r, false)
    case GListValX(x, v) =>
      var (ok, d) := ListArg(st, x);
      if !ok then Crashed
      else if d.Pair? then
        if d.p < |st.mem| && v < |st.x| then Unify(u, st.(s := d.p + 1, mode := Read), st.mem[d.p], st.x[v])
            else Crashed
      else if !Unbound(st.mem, d) then NoList(d)
      else if st.hr + 2 < st.asp <= |st.mem| && v < |st.x| then
        Ok(st.(mem := st.mem[st.hr := st.x[v]][d.a := Pair(st.hr)], hr := st.hr + 2, s := st.hr + 1, mode := Write))
      else Crashed
    case GListValY(x, y) =>
      var (ok, d) := ListArg(st, x);
      if !ok then Crashed
      else if d.Pair? then
        if d.p >= |st.mem| || !Slot(st, env, y) then Crashed
        else
          var h, t := st.mem[d.p], Y(st, env, y);
          var at := LastRef(st.mem, h, d.p, Addresses(|st.mem|));
          Unify(u, st.(s := if BothBound(st.mem, h, t) then at + 1 else d.p + 1, mode := Read), h, t)
      else if !Unbound(st.mem, d) then NoList(d)
      else if st.hr + 2 < st.asp <= |st.mem| && Slot(st, env, y) then
        var m := st.mem[d.a := Pair(st.hr)];
        Ok(st.(mem := m[st.hr := m[env + y]], hr := st.hr + 2, s := st.hr + 1, mode := Write))
      else Crashed
    case GlVoidVarX(x, v) =>
      var (ok, d) := ListArg(st, x);
      if !ok then Crashed
      else if d.Pair? then (if PairArg(st, d) then SetX(st, v, st.mem[d.p + 1]) else Crashed)
      else if !Unbound(st.mem, d) then NoList(d)
      else if v < |st.x| then NewPair(st.(x := st.x[v := Ref(st.hr + 1)]), d.a, Ref(st.hr), Ref(st.hr + 1))
      else Crashed
    case GlVoidVarY(x, y) =>
      var (ok, d) := ListArg(st, x);
      if !ok then Crashed
      else if d.Pair? then (if PairArg(st, d) then SetY(st, env, y, st.mem[d.p + 1]) else Crashed)
      else if !Unbound(st.mem, d) then NoList(d)
      else if Slot(st, env, y) then
        NewPair(st.(mem := st.mem[env + y := Ref(st.hr + 1)]), d.a, Ref(st.hr), Ref(st.hr + 1))
      else Crashed
    case GlVoidValX(x, v) =>
      var (ok, d) := ListArg(st, x);
      if !ok then Crashed
      else if d.Pair? then (if PairArg(st, d) && v < |st.x| then Unify(u, st, st.mem[d.p + 1], st.x[v]) else Crashed)
      else if !Unbound(st.mem, d) then NoList(d)
      else if v < |st.x| then NewPair(st, d.a, Ref(st.hr), st.x[v])
      else Crashed
    case GlVoidValY(x, y) =>
      var (ok, d) := ListArg(st, x);
      if !ok then Crashed
      else if d.Pair? then
        (if PairArg(st, d) && Slot(st, env, y) then Unify(u, st, st.mem[d.p + 1], Y(st, env, y)) else Crashed)
      else if !Unbound(st.mem, d) then NoList(d)
      else if Slot(st, env, y) then
        NewPair(st, d.a, Ref(st.hr), if d.a == env + y then Pair(st.hr) else Y(st, env, y))
      else Crashed
  }

  /** Two variables in a row, into registers l and r. */
  function Pair2(st: State, l: nat, r: nat, more: bool): Outcome {
    if st.s + 1 >= |st.mem| || l >= |st.x| || r >= |st.x| then Crashed
    else
      var s' := if more then st.s + 2 else st.s;
      if st.mode == Read then Ok(st.(x := st.x[l := st.mem[st.s]][r := st.mem[st.s + 1]], s := s'))
      else
        Ok(st.(mem := st.mem[st.s := Ref(st.s)][st.s + 1 := Ref(st.s + 1)],
            x := st.x[l := Ref(st.s)][r := Ref(st.s + 1)],
               s := s'))
  }

  function Exec(u: Unifier, env: nat, code: Code, st: State): Outcome {
    if code == [] then Ok(st)
    else
      var o := Step(u, env, code[0], st);
      if o.Ok? then Exec(u, env, code[1..], o.st) else o
  }
}
