/** The peephole: what is merged, and that it means the same. */
module MergeRules {
  import opened Cells
  import opened Terms
  import HU = HeadUnify
  import opened Merge

  type State = HU.State

  type Outcome = HU.Outcome

  // ---------------------------------------------------------------- the peephole

  /** The constants of get_atoms into registers x, x + 1 and on, up to register 6. */
  function AtomsAt(code: Code, x: nat): (cs: seq<nat>)
    ensures |cs| <= |code| && (x <= 6 ==> |cs| <= 7 - x)
    decreases |code|
  {
    if code != [] && x <= 6 && code[0].GetAtom? && code[0].x == x then [code[0].c] + AtomsAt(code[1..], x + 1) else []
  }

  /** How often i stands at the front. */
  function RunOf(code: Code, i: Instr): (n: nat)
    ensures n <= |code| && forall j :: 0 <= j < n ==> code[j] == i
    ensures n < |code| ==> code[n] != i
  {
    if code != [] && code[0] == i then 1 + RunOf(code[1..], i) else 0
  }

  /** The next instruction to assemble, how many pseudo-instructions it stands for, and whether the next unify_atom is
      to be left alone. */
  function First(code: Code, alone: bool): (r: (Instr, nat, bool))
    requires code != []
    ensures 0 < r.1 <= |code| && (r.1 == 1 ==> r.0 == code[0])
  {
    var i, n, m := code[0], if |code| > 1 then code[1] else PutAtom(0, 0), if |code| > 2 then code[2]
        else PutAtom(0, 0);
    match i
    case GetAtom(c, x) =>
      var cs := if x == 1 then AtomsAt(code[1..], 2) else [];
      if cs == [] then (i, 1, alone) else (GetAtoms([c] + cs), 1 + |cs|, alone)
    case PutAtom(c, x) =>
      var cs := if x == 1 then AtomsAt(code[1..], 2) else [];
      if cs == [] then (i, 1, alone) else (GetAtoms([c] + cs), 1 + |cs|, alone)
    case PutValX(v, x) =>
      if n.PutValX? then (PutXXVal(v, x, n.v, n.x), 2, alone)
      else if x == 0 && n.GetVarX? && n.x == 0 then (PutValX(v, n.v), 2, alone)
      else if x == 0 && n.GetValX? && n.x == 0 then (UnifyXX(v, n.v), 2, alone)
      else if x == 0 && n.GetVarY? && n.x == 0 then (GetVarY(n.y, v), 2, alone)
      else if x == 0 && n.GetValY? && n.x == 0 then (GetValY(n.y, v), 2, alone)
      else (i, 1, alone)
    case PutValY(y, x) => if n.PutValY? then (PutYVals(y, x, n.y, n.x), 2, alone) else (i, 1, alone)
    case GetVarY(y, x) => if n.GetVarY? then (GetYYVar(y, x, n.y, n.x), 2, alone) else (i, 1, alone)
    case GetList(x) =>
      if x != 1 && n.UValX? then (GListValX(x, n.v), 2, alone)
      else if x != 1 && n.UValY? then (GListValY(x, n.y), 2, alone)
      else if x == 1 && n.UAtom? then (i, 1, true)
      else if x != 1 && n.UVoid? && m.ULastVoid? then (GlVoidVarX(x, 0), 3, alone)
      else if x != 1 && n.UVoid? && m.ULastVarX? then (GlVoidVarX(x, m.v), 3, alone)
      else if x != 1 && n.UVoid? && m.ULastVarY? then (GlVoidVarY(x, m.y), 3, alone)
      else if x != 1 && n.UVoid? && m.ULastValX? then (GlVoidValX(x, m.v), 3, alone)
      else if x != 1 && n.UVoid? && m.ULastValY? then (GlVoidValY(x, m.y), 3, alone)
      else (i, 1, alone)
    case UAtom(c) =>
      var k := RunOf(code, i);
      if alone || k == 1 then (i, 1, false) else (UNAtoms(k, c), k, false)
    case WriteAtom(c) =>
      var k := RunOf(code, i);
      if alone || k == 1 then (i, 1, false) else (WriteNAtoms(k, c), k, false)
    case UVoid =>
      var k := RunOf(code, UVoid);
      if k < |code| && code[k].ULastVoid? then (ULNVoids(k + 1), k + 1, alone)
      else if k == 1 then (i, 1, alone)
      else (UNVoids(k), k, alone)
    case UVarX(v) =>
      if n.UVarX? then (UVarX2(v, n.v), 2, alone)
      else if n.ULastVarX? then (ULVarX2(v, n.v), 2, alone)
      else (i, 1, alone)
    case _ => (i, 1, alone)
  }

  function Peep(code: Code, alone: bool): Code
    decreases |code|
  {
    if code == [] then [] else var r := First(code, alone); [r.0] + Peep(code[r.1..], r.2)
  }

  // ---------------------------------------------------------------- what the code relies on

  /** live: SREG and the mode are those of a list or structure not done with. zero: scratch register 0 holds a value
      that is still to be read. */
  datatype Use = Use(live: bool, zero: bool)

  predicate CanRead(f: Use, x: nat) { x != 0 || f.zero }

  function Read(f: Use, x: nat): Use { if x == 0 then f.(zero := false) else f }

  function Written(f: Use, x: nat): Use { if x == 0 then f.(zero := true) else f }

  /** Pseudo-instructions that use nothing dead: what the compiler emits. */
  predicate Allowed(i: Instr, f: Use) {
    match i
    case GetAtom(_, x) => CanRead(f, x)
    case PutAtom(_, _) => true
    case GetVarX(_, x) => CanRead(f, x)
    case PutValX(v, _) => CanRead(f, v)
    case GetValX(v, x) => CanRead(f, v) && CanRead(f, x)
    case GetVarY(_, x) => CanRead(f, x)
    case PutValY(_, _) => true
    case GetValY(_, x) => CanRead(f, x)
    case GetList(x) => CanRead(f, x)
    case UAtom(_) => f.live
    case UVoid => f.live
    case UVarX(_) => f.live
    case UValX(v) => f.live && CanRead(f, v)
    case UValY(_) => f.live
    case ULastVoid => f.live
    case ULastVarX(_) => f.live
    case ULastVarY(_) => f.live
    case ULastValX(v) => f.live && CanRead(f, v)
    case ULastValY(_) => f.live
    case WriteAtom(_) => f.live
    case _ => false
  }

  function Effect(i: Instr, f: Use): Use {
    match i
    case GetAtom(_, x) => Read(f, x)
    case PutAtom(_, x) => Written(f, x)
    case GetVarX(v, x) => Written(Read(f, x), v)
    case PutValX(v, x) => Written(Read(f, v), x)
    case GetValX(v, x) => Read(Read(f, v), x)
    case GetVarY(_, x) => Read(f, x)
    case PutValY(_, x) => Written(f, x)
    case GetValY(_, x) => Read(f, x)
    case GetList(x) => Read(f, x).(live := true)
    case UVarX(v) => Written(f, v)
    case UValX(v) => Read(f, v)
    case ULastVarX(v) => Written(f, v).(live := false)
    case ULastValX(v) => Read(f, v).(live := false)
    case ULastVoid => Use(false, false)
    case ULastVarY(_) => f.(live := false)
    case ULastValY(_) => f.(live := false)
    case _ => f
  }

  predicate Checked(code: Code, f: Use) {
    code == [] || (Allowed(code[0], f) && Checked(code[1..], Effect(code[0], f)))
  }

  function Effects(code: Code, f: Use): Use {
    if code == [] then f else Effects(code[1..], Effect(code[0], f))
  }

  /** The same but for what is dead. */
  ghost predicate Rel(f: Use, a: State, b: State) {
    && a.mem == b.mem && a.hr == b.hr && a.asp == b.asp && a.sp == b.sp && |a.x| == |b.x|
    && (forall i {:trigger a.x[i]} {:trigger b.x[i]} :: 0 <= i < |a.x| && (i != 0 || f.zero) ==> a.x[i] == b.x[i])
    && (f.live ==> a.s == b.s && a.mode == b.mode)
  }

  /** Unless the first crashes both fail, or both go on in states that are the same but for what is dead. */
  ghost predicate RelOut(f: Use, o: Outcome, q: Outcome) {
    match o
    case Crashed => true
    case Failed => q.Failed?
    case Ok(st) => q.Ok? && Rel(f, st, q.st)
  }

  // ---------------------------------------------------------------- one pseudo-instruction, twice

  predicate Weaker(g: Use, f: Use) { (g.live ==> f.live) && (g.zero ==> f.zero) }

  lemma Weaken(g: Use, f: Use, o: Outcome, q: Outcome)
    requires RelOut(f, o, q) && Weaker(g, f)
    ensures RelOut(g, o, q)
  {
  }

  lemma MeetRel(f: Use, a: State, b: State, d: Cell, c: nat)
    requires Rel(f, a, b)
    ensures RelOut(f, HU.MeetAtom(a, d, c), HU.MeetAtom(b, d, c))
  {
  }

  lemma SetXRel(f: Use, a: State, b: State, x: nat, c: Cell)
    requires Rel(f, a, b)
    ensures RelOut(Written(f, x), HU.SetX(a, x, c), HU.SetX(b, x, c))
  {
  }

  lemma SetYRel(f: Use, a: State, b: State, env: nat, y: nat, c: Cell)
    requires Rel(f, a, b)
    ensures RelOut(f, SetY(a, env, y, c), SetY(b, env, y, c))
  {
  }

  lemma UnifyRel(u: Unifier, f: Use, a: State, b: State, c: Cell, d: Cell)
    requires Rel(f, a, b)
    ensures RelOut(f, Unify(u, a, c, d), Unify(u, b, c, d))
  {
  }

  lemma SimpleRel(f: Use, a: State, b: State, p: HU.Pat)
    requires Rel(f, a, b) && f.live && !p.PNode?
    ensures
      var g := if p.PVar? then Written(f, p.x) else f;
      && RelOut(g, HU.Simple(a, p), HU.Simple(b, p)) && RelOut(g, HU.Next(HU.Simple(a, p)), HU.Next(HU.Simple(b, p)))
  {
    if a.s < |a.mem| {
      MeetRel(f, a, b, DerefCell(a.mem, a.mem[a.s]), if p.PAtom? then p.c else 0);
    }
  }

  lemma ValueRel(u: Unifier, f: Use, a: State, b: State, c: Cell)
    requires Rel(f, a, b) && f.live
    ensures RelOut(f, Value(u, a, c), Value(u, b, c)) && RelOut(f, HU.Next(Value(u, a, c)), HU.Next(Value(u, b, c)))
  {
  }

  lemma EnterRel(f: Use, a: State, b: State, d: Cell)
    requires Rel(f, a, b)
    ensures RelOut(f.(live := true), HU.Enter(a, Dot, d), HU.Enter(b, Dot, d))
  {
  }

  lemma SameRegister(f: Use, a: State, b: State, x: nat)
    requires Rel(f, a, b) && CanRead(f, x)
    ensures x < |a.x| ==> x < |b.x| && a.x[x] == b.x[x]
    ensures |a.x| == |b.x|
  {
  }

  lemma SameMemory(f: Use, a: State, b: State)
    requires Rel(f, a, b)
    ensures a.mem == b.mem && a.hr == b.hr && a.asp == b.asp
  {
  }

  predicate InArgument(i: Instr) {
    i.UAtom? || i.UVoid? || i.UVarX? || i.UValX? || i.UValY? || i.ULastVoid? || i.ULastVarX? || i.ULastVarY? ||
        i.ULastValX?
    || i.ULastValY? || i.WriteAtom?
  }

  lemma HeadRel(u: Unifier, env: nat, i: Instr, f: Use, a: State, b: State)
    requires Allowed(i, f) && Rel(f, a, b) && !InArgument(i)
    ensures RelOut(Effect(i, f), Step(u, env, i, a), Step(u, env, i, b))
  {
    hide Rel, RelOut, HU.MeetAtom, HU.SetX, HU.Simple, HU.Next, HU.Enter, Unify, Value, SetY, DerefCell;
    SameMemory(f, a, b);
    var g := Effect(i, f);
    var o, q := Step(u, env, i, a), Step(u, env, i, b);
    match i
    case GetAtom(c, x) =>
      SameRegister(f, a, b, x);
      CrashedRel(g);
      if x < |a.x| { MeetRel(f, a, b, DerefCell(a.mem, a.x[x]), c); Weaken(g, f, o, q); }
    case PutAtom(c, x) => SetXRel(f, a, b, x, Con(c));
    case GetVarX(v, x) =>
      SameRegister(f, a, b, x);
      CrashedRel(g);
      if x < |a.x| { SetXRel(f, a, b, v, a.x[x]); Weaken(g, Written(f, v), o, q); }
    case PutValX(v, x) =>
      SameRegister(f, a, b, v);
      CrashedRel(g);
      if v < |a.x| { SetXRel(f, a, b, x, a.x[v]); Weaken(g, Written(f, x), o, q); }
    case GetValX(v, x) =>
      SameRegister(f, a, b, x);
      SameRegister(f, a, b, v);
      CrashedRel(g);
      var l, r := if v < x then v else x, if v < x then x else v;
      if r < |a.x| { UnifyRel(u, f, a, b, a.x[l], a.x[r]); Weaken(g, f, o, q); }
    case GetVarY(y, x) =>
      SameRegister(f, a, b, x);
      CrashedRel(g);
      if x < |a.x| { SetYRel(f, a, b, env, y, a.x[x]); Weaken(g, f, o, q); }
    case PutValY(y, x) =>
      CrashedRel(g);
      SetXRel(f, a, b, x, Y(a, env, y));
    case GetValY(y, x) =>
      SameRegister(f, a, b, x);
      CrashedRel(g);
      if x < |a.x| { UnifyRel(u, f, a, b, Y(a, env, y), a.x[x]); Weaken(g, f, Unify(u, a, Y(a, env, y), a.x[x]),
          Unify(u, b, Y(a, env, y), a.x[x])); }
    case GetList(x) =>
      SameRegister(f, a, b, x);
      CrashedRel(g);
      EnterRel(f, a, b, ListArg(a, x).1);
      Weaken(g, f.(live := true), HU.Enter(a, Dot, ListArg(a, x).1), HU.Enter(b, Dot, ListArg(a, x).1));
  }

  lemma ArgumentRel(u: Unifier, env: nat, i: Instr, f: Use, a: State, b: State)
    requires Allowed(i, f) && Rel(f, a, b) && InArgument(i)
    ensures RelOut(Effect(i, f), Step(u, env, i, a), Step(u, env, i, b))
  {
    hide Rel, RelOut, HU.MeetAtom, HU.SetX, HU.Simple, HU.Next, HU.Enter, Unify, Value, SetY, DerefCell;
    SameMemory(f, a, b);
    var g := Effect(i, f);
    var o, q := Step(u, env, i, a), Step(u, env, i, b);
    match i
    case UAtom(c) => SimpleRel(f, a, b, HU.PAtom(c));
    case UVoid => SimpleRel(f, a, b, HU.PVoid);
    case UVarX(v) => SimpleRel(f, a, b, HU.PVar(v));
    case UValX(v) =>
      SameRegister(f, a, b, v);
      CrashedRel(g);
      if v < |a.x| { ValueRel(u, f, a, b, a.x[v]); Weaken(g, f, o, q); }
    case UValY(y) =>
      CrashedRel(g);
      ValueRel(u, f, a, b, Y(a, env, y));
    case ULastVoid =>
      SimpleRel(f, a, b, HU.PVar(0));
      Weaken(g, Written(f, 0), o, q);
    case ULastVarX(v) =>
      SimpleRel(f, a, b, HU.PVar(v));
      Weaken(g, Written(f, v), o, q);
    case ULastVarY(y) =>
      CrashedRel(g);
      LastVarYRel(u, env, f, a, b, y);
      Weaken(g, f, o, q);
    case ULastValX(v) =>
      SameRegister(f, a, b, v);
      CrashedRel(g);
      if v < |a.x| { ValueRel(u, f, a, b, a.x[v]); Weaken(g, f, o, q); }
    case ULastValY(y) =>
      CrashedRel(g);
      ValueRel(u, f, a, b, Y(a, env, y));
      Weaken(g, f, Value(u, a, Y(a, env, y)), Value(u, b, Y(a, env, y)));
    case WriteAtom(c) => WriteAtomRel(u, env, f, a, b, c);
  }

  /** A pseudo-instruction that uses nothing dead does the same in states that are the same but for what is dead. */
  lemma StepRel(u: Unifier, env: nat, i: Instr, f: Use, a: State, b: State)
    requires Allowed(i, f) && Rel(f, a, b)
    ensures RelOut(Effect(i, f), Step(u, env, i, a), Step(u, env, i, b))
  {
    hide Step, Rel, RelOut, Allowed, Effect;
    if InArgument(i) { ArgumentRel(u, env, i, f, a, b); } else { HeadRel(u, env, i, f, a, b); }
  }

  lemma CrashedRel(f: Use)
    ensures forall q: Outcome :: RelOut(f, HU.Crashed, q)
  {
  }

  lemma LastVarYRel(u: Unifier, env: nat, f: Use, a: State, b: State, y: nat)
    requires Rel(f, a, b) && f.live
    ensures RelOut(f, Step(u, env, ULastVarY(y), a), Step(u, env, ULastVarY(y), b))
  {
  }

  lemma WriteAtomRel(u: Unifier, env: nat, f: Use, a: State, b: State, c: nat)
    requires Rel(f, a, b) && f.live
    ensures RelOut(f, Step(u, env, WriteAtom(c), a), Step(u, env, WriteAtom(c), b))
  {
  }

  // ---------------------------------------------------------------- single steps

  lemma StepList(u: Unifier, env: nat, x: nat, st: State)
    ensures Step(u, env, GetList(x), st) ==
      if ListArg(st, x).0 then HU.Enter(st, Dot, ListArg(st, x).1) else HU.Crashed
  {
  }

  lemma StepVoid(u: Unifier, env: nat, st: State)
    ensures Step(u, env, UVoid, st) == HU.Next(HU.Simple(st, HU.PVoid))
  {
  }

  lemma StepLast(u: Unifier, env: nat, v: nat, st: State)
    ensures Step(u, env, ULastVarX(v), st) == HU.Simple(st, HU.PVar(v)) &&
      Step(u, env, ULastVoid, st) == HU.Simple(st, HU.PVar(0))
    ensures Step(u, env, ULastValX(v), st) == if v < |st.x| then Value(u, st, st.x[v]) else HU.Crashed
    ensures Step(u, env, ULastValY(v), st) == if Slot(st, env, v) then Value(u, st, Y(st, env, v)) else HU.Crashed
  {
  }

  lemma StepVar(u: Unifier, env: nat, v: nat, st: State)
    ensures Step(u, env, UVarX(v), st) == HU.Next(HU.Simple(st, HU.PVar(v)))
  {
  }

  lemma StepVal(u: Unifier, env: nat, v: nat, st: State)
    ensures Step(u, env, UValY(v), st) == if Slot(st, env, v) then HU.Next(Value(u, st, Y(st, env, v))) else HU.Crashed
  {
  }

  lemma StepPut(u: Unifier, env: nat, v: nat, x: nat, st: State)
    ensures Step(u, env, PutValX(v, x), st) == if v < |st.x| then HU.SetX(st, x, st.x[v]) else HU.Crashed
    ensures Step(u, env, GetVarX(v, x), st) == if x < |st.x| then HU.SetX(st, v, st.x[x]) else HU.Crashed
    ensures Step(u, env, GetVarY(v, x), st) == if x < |st.x| then SetY(st, env, v, st.x[x]) else HU.Crashed
    ensures Step(u, env, GetValY(v, x), st) ==
      if Slot(st, env, v) && x < |st.x| then Unify(u, st, Y(st, env, v), st.x[x]) else HU.Crashed
  {
  }

  // ---------------------------------------------------------------- the merged forms, one by one

  lemma Exec1(u: Unifier, env: nat, i: Instr, st: State)
    ensures Exec(u, env, [i], st) == Step(u, env, i, st)
  {
    hide Step;
    assert [i][1..] == [];
  }

  lemma Exec2(u: Unifier, env: nat, i: Instr, j: Instr, st: State)
    ensures
      var o := Step(u, env, i, st);
      Exec(u, env, [i, j], st) == if o.Ok? then Step(u, env, j, o.st) else o
  {
    hide Step;
    var o := Step(u, env, i, st);
    assert [i, j][1..] == [j];
    if o.Ok? { Exec1(u, env, j, o.st); }
  }

  lemma Effects2(i: Instr, j: Instr, f: Use)
    ensures Effects([i, j], f) == Effect(j, Effect(i, f))
  {
    assert [i, j][1..] == [j] && [j][1..] == [];
    assert Effects([j], Effect(i, f)) == Effects([], Effect(j, Effect(i, f)));
  }

  lemma Effects3(i: Instr, j: Instr, k: Instr, f: Use)
    ensures Effects([i, j, k], f) == Effect(k, Effect(j, Effect(i, f)))
  {
    assert [i, j, k][1..] == [j, k];
    Effects2(j, k, Effect(i, f));
  }

  lemma Exec3(u: Unifier, env: nat, i: Instr, j: Instr, k: Instr, st: State)
    ensures
      var o := Step(u, env, i, st);
      Exec(u, env, [i, j, k], st) == if o.Ok? then Exec(u, env, [j, k], o.st) else o
  {
    hide Step;
    assert [i, j, k][1..] == [j, k];
  }

  ghost predicate Refines(o: Outcome, q: Outcome) { o.Crashed? || q == o }

  /** put_xx_val loads both registers at once: it is the two loads exactly when the second does not read what the first
      wrote, or would have read the same. */
  lemma PutXXValIff(u: Unifier, env: nat, l1: nat, r1: nat, l2: nat, r2: nat, st: State)
    requires l1 < |st.x| && r1 < |st.x| && l2 < |st.x| && r2 < |st.x|
    ensures Step(u, env, PutXXVal(l1, r1, l2, r2), st) == Exec(u, env, [PutValX(l1, r1), PutValX(l2, r2)], st) <==>
              r1 != l2 || st.x[l1] == st.x[l2]
  {
    Exec2(u, env, PutValX(l1, r1), PutValX(l2, r2), st);
    var y := st.x[r1 := st.x[l1]];
    assert y[r2 := y[l2]][r2] == y[l2] && y[r2 := st.x[l2]][r2] == st.x[l2];
  }

  lemma PutXXIs(u: Unifier, env: nat, l1: nat, r1: nat, l2: nat, r2: nat, st: State)
    requires l1 < |st.x| && r1 < |st.x| && l2 < |st.x| && r2 < |st.x|
    ensures Step(u, env, PutXXVal(l1, r1, l2, r2), st) == HU.Ok(st.(x := st.x[r1 := st.x[l1]][r2 := st.x[l2]]))
  {
  }

  /** Two loads of which the second reads what the first wrote. */
  lemma PutXXValCounterexample(u: Unifier, st: State)
    requires st.x == [Con(0), Con(1), Con(2)]
    ensures Step(u, 0, PutXXVal(1, 2, 2, 0), st) == HU.Ok(st.(x := [Con(2), Con(1), Con(1)]))
    ensures Exec(u, 0, [PutValX(1, 2), PutValX(2, 0)], st) == HU.Ok(st.(x := [Con(1), Con(1), Con(1)]))
  {
    hide Step;
    Exec2(u, 0, PutValX(1, 2), PutValX(2, 0), st);
    PutXXIs(u, 0, 1, 2, 2, 0, st);
    StepPut(u, 0, 1, 2, st);
    StepPut(u, 0, 2, 0, st.(x := st.x[2 := st.x[1]]));
  }

  lemma PutYValsExact(u: Unifier, env: nat, y1: nat, x1: nat, y2: nat, x2: nat, st: State)
    ensures Refines(Exec(u, env, [PutValY(y1, x1), PutValY(y2, x2)], st), Step(u, env, PutYVals(y1, x1, y2, x2), st))
  {
    Exec2(u, env, PutValY(y1, x1), PutValY(y2, x2), st);
  }

  lemma GetYYVarExact(u: Unifier, env: nat, y1: nat, x1: nat, y2: nat, x2: nat, st: State)
    ensures Refines(Exec(u, env, [GetVarY(y1, x1), GetVarY(y2, x2)], st), Step(u, env, GetYYVar(y1, x1, y2, x2), st))
  {
    Exec2(u, env, GetVarY(y1, x1), GetVarY(y2, x2), st);
  }

  /** A load of scratch register 0 that is only there to be moved on... */
  lemma MoveRule(u: Unifier, env: nat, v: nat, w: nat, f: Use, st: State)
    requires CanRead(f, v)
    ensures RelOut(Effects([PutValX(v, 0), GetVarX(w, 0)], f), Exec(u, env, [PutValX(v, 0), GetVarX(w, 0)], st),
                   Step(u, env, PutValX(v, w), st))
  {
    hide Step;
    Exec2(u, env, PutValX(v, 0), GetVarX(w, 0), st);
    Effects2(PutValX(v, 0), GetVarX(w, 0), f);
    StepPut(u, env, v, 0, st);
    StepPut(u, env, v, w, st);
    var o := Step(u, env, PutValX(v, 0), st);
    if o.Ok? { StepPut(u, env, w, 0, o.st); }
  }

  /** ... or kept ... */
  lemma KeepRule(u: Unifier, env: nat, v: nat, w: nat, f: Use, st: State)
    requires CanRead(f, v)
    ensures RelOut(Effects([PutValX(v, 0), GetVarY(w, 0)], f), Exec(u, env, [PutValX(v, 0), GetVarY(w, 0)], st),
                   Step(u, env, GetVarY(w, v), st))
  {
    hide Step;
    Exec2(u, env, PutValX(v, 0), GetVarY(w, 0), st);
    Effects2(PutValX(v, 0), GetVarY(w, 0), f);
    StepPut(u, env, v, 0, st);
    StepPut(u, env, w, v, st);
    var o := Step(u, env, PutValX(v, 0), st);
    if o.Ok? { StepPut(u, env, w, 0, o.st); }
  }

  /** ... or unified. */
  lemma MeetYRule(u: Unifier, env: nat, v: nat, w: nat, f: Use, st: State)
    requires CanRead(f, v)
    ensures RelOut(Effects([PutValX(v, 0), GetValY(w, 0)], f), Exec(u, env, [PutValX(v, 0), GetValY(w, 0)], st),
                   Step(u, env, GetValY(w, v), st))
  {
    hide Step;
    Exec2(u, env, PutValX(v, 0), GetValY(w, 0), st);
    Effects2(PutValX(v, 0), GetValY(w, 0), f);
    StepPut(u, env, v, 0, st);
    StepPut(u, env, w, v, st);
    var o := Step(u, env, PutValX(v, 0), st);
    if o.Ok? { StepPut(u, env, w, 0, o.st); }
  }

  lemma StepMeetX(u: Unifier, env: nat, v: nat, x: nat, st: State)
    ensures Step(u, env, GetValX(v, x), st) ==
      var l, r := if v < x then v else x, if v < x then x else v;
      if r < |st.x| then Unify(u, st, st.x[l], st.x[r]) else HU.Crashed
    ensures Step(u, env, UnifyXX(v, x), st) == if v < |st.x| && x < |st.x| then Unify(u, st, st.x[v], st.x[x])
      else HU.Crashed
  {
  }

  lemma MeetXRule(u: Unifier, env: nat, v: nat, w: nat, f: Use, st: State)
    requires CanRead(f, v) && w != 0
    ensures RelOut(Effects([PutValX(v, 0), GetValX(w, 0)], f), Exec(u, env, [PutValX(v, 0), GetValX(w, 0)], st),
                   Step(u, env, UnifyXX(v, w), st))
  {
    hide Step;
    Exec2(u, env, PutValX(v, 0), GetValX(w, 0), st);
    Effects2(PutValX(v, 0), GetValX(w, 0), f);
    StepPut(u, env, v, 0, st);
    StepMeetX(u, env, v, w, st);
    var o := Step(u, env, PutValX(v, 0), st);
    if o.Ok? { StepMeetX(u, env, w, 0, o.st); }
  }

  /** glist_valx is get_list and unify_val. */
  lemma GListValXExact(u: Unifier, env: nat, x: nat, v: nat, st: State)
    ensures Refines(Exec(u, env, [GetList(x), UValX(v)], st), Step(u, env, GListValX(x, v), st))
  {
    Exec2(u, env, GetList(x), UValX(v), st);
    var (ok, d) := ListArg(st, x);
    if ok && Unbound(st.mem, d) && st.hr + 2 < st.asp <= |st.mem| && v < |st.x| {
      assert d.a != st.hr;
      assert st.mem[d.a := Pair(st.hr)][st.hr := st.x[v]] == st.mem[st.hr := st.x[v]][d.a := Pair(st.hr)];
    }
  }

  lemma GlVoidVarXIs(u: Unifier, env: nat, x: nat, v: nat, st: State)
    ensures Step(u, env, GlVoidVarX(x, v), st) ==
      var (ok, d) := ListArg(st, x);
      if !ok then HU.Crashed
      else if d.Pair? then (if PairArg(st, d) then HU.SetX(st, v, st.mem[d.p + 1]) else HU.Crashed)
      else if !Unbound(st.mem, d) then NoList(d)
      else if v < |st.x| then NewPair(st.(x := st.x[v := Ref(st.hr + 1)]), d.a, Ref(st.hr), Ref(st.hr + 1))
      else HU.Crashed
  {
  }

  lemma GlVoidValXIs(u: Unifier, env: nat, x: nat, v: nat, st: State)
    ensures Step(u, env, GlVoidValX(x, v), st) ==
      var (ok, d) := ListArg(st, x);
      if !ok then HU.Crashed
      else if d.Pair? then (if PairArg(st, d) && v < |st.x| then Unify(u, st, st.mem[d.p + 1], st.x[v]) else HU.Crashed)
      else if !Unbound(st.mem, d) then NoList(d)
      else if v < |st.x| then NewPair(st, d.a, Ref(st.hr), st.x[v])
      else HU.Crashed
  {
  }

  lemma GlVoidValYIs(u: Unifier, env: nat, x: nat, y: nat, st: State)
    ensures Step(u, env, GlVoidValY(x, y), st) ==
      var (ok, d) := ListArg(st, x);
      if !ok then HU.Crashed
      else if d.Pair? then
        (if PairArg(st, d) && Slot(st, env, y) then Unify(u, st, st.mem[d.p + 1], Y(st, env, y)) else HU.Crashed)
      else if !Unbound(st.mem, d) then NoList(d)
      else if Slot(st, env, y) then NewPair(st, d.a, Ref(st.hr), if d.a == env + y then Pair(st.hr) else Y(st, env, y))
      else HU.Crashed
  {
  }

  /** A list whose head does not matter. */
  lemma GlVoidVarXRule(u: Unifier, env: nat, x: nat, v: nat, f: Use, st: State)
    ensures RelOut(Effects([GetList(x), UVoid, ULastVarX(v)], f), Exec(u, env, [GetList(x), UVoid, ULastVarX(v)], st),
                   Step(u, env, GlVoidVarX(x, v), st))
  {
    hide Step, DerefCell, HU.MeetAtom, Effects;
    Effects3(GetList(x), UVoid, ULastVarX(v), f);
    Exec3(u, env, GetList(x), UVoid, ULastVarX(v), st);
    StepList(u, env, x, st);
    GlVoidVarXIs(u, env, x, v, st);
    var o := Step(u, env, GetList(x), st);
    if o.Ok? {
      Exec2(u, env, UVoid, ULastVarX(v), o.st);
      StepVoid(u, env, o.st);
      var p := Step(u, env, UVoid, o.st);
      if p.Ok? { StepLast(u, env, v, p.st); }
    }
  }

  /** Both arguments void: a last void is a variable in scratch register 0. */
  lemma GlVoidVoidRule(u: Unifier, env: nat, x: nat, f: Use, st: State)
    ensures RelOut(Effects([GetList(x), UVoid, ULastVoid], f), Exec(u, env, [GetList(x), UVoid, ULastVoid], st),
                   Step(u, env, GlVoidVarX(x, 0), st))
  {
    hide Step, DerefCell, HU.MeetAtom, Effects;
    Effects3(GetList(x), UVoid, ULastVoid, f);
    Exec3(u, env, GetList(x), UVoid, ULastVoid, st);
    StepList(u, env, x, st);
    GlVoidVarXIs(u, env, x, 0, st);
    var o := Step(u, env, GetList(x), st);
    if o.Ok? {
      Exec2(u, env, UVoid, ULastVoid, o.st);
      StepVoid(u, env, o.st);
      var p := Step(u, env, UVoid, o.st);
      if p.Ok? { StepLast(u, env, 0, p.st); }
    }
  }

  lemma GlVoidValXRule(u: Unifier, env: nat, x: nat, v: nat, f: Use, st: State)
    ensures RelOut(Effects([GetList(x), UVoid, ULastValX(v)], f), Exec(u, env, [GetList(x), UVoid, ULastValX(v)], st),
                   Step(u, env, GlVoidValX(x, v), st))
  {
    hide Step, DerefCell, HU.MeetAtom, Effects;
    Effects3(GetList(x), UVoid, ULastValX(v), f);
    Exec3(u, env, GetList(x), UVoid, ULastValX(v), st);
    StepList(u, env, x, st);
    GlVoidValXIs(u, env, x, v, st);
    var o := Step(u, env, GetList(x), st);
    if o.Ok? {
      Exec2(u, env, UVoid, ULastValX(v), o.st);
      StepVoid(u, env, o.st);
      var p := Step(u, env, UVoid, o.st);
      if p.Ok? { StepLast(u, env, v, p.st); }
    }
  }

  lemma GlVoidValYRule(u: Unifier, env: nat, x: nat, y: nat, f: Use, st: State)
    ensures RelOut(Effects([GetList(x), UVoid, ULastValY(y)], f), Exec(u, env, [GetList(x), UVoid, ULastValY(y)], st),
                   Step(u, env, GlVoidValY(x, y), st))
  {
    hide Step, DerefCell, HU.MeetAtom, Effects;
    Effects3(GetList(x), UVoid, ULastValY(y), f);
    Exec3(u, env, GetList(x), UVoid, ULastValY(y), st);
    StepList(u, env, x, st);
    GlVoidValYIs(u, env, x, y, st);
    var o := Step(u, env, GetList(x), st);
    if o.Ok? {
      Exec2(u, env, UVoid, ULastValY(y), o.st);
      StepVoid(u, env, o.st);
      var p := Step(u, env, UVoid, o.st);
      if p.Ok? { StepLast(u, env, y, p.st); }
    }
  }

  lemma GlVoidVarYIs(u: Unifier, env: nat, x: nat, y: nat, st: State)
    ensures Step(u, env, GlVoidVarY(x, y), st) ==
      var (ok, d) := ListArg(st, x);
      if !ok then HU.Crashed
      else if d.Pair? then (if PairArg(st, d) then SetY(st, env, y, st.mem[d.p + 1]) else HU.Crashed)
      else if !Unbound(st.mem, d) then NoList(d)
      else if Slot(st, env, y) then
        NewPair(st.(mem := st.mem[env + y := Ref(st.hr + 1)]), d.a, Ref(st.hr), Ref(st.hr + 1))
      else HU.Crashed
    ensures Step(u, env, ULastVarY(y), st) ==
      if st.s >= |st.mem| then HU.Crashed
      else if st.mode == HU.Read then SetY(st, env, y, st.mem[st.s])
      else SetY(st.(mem := st.mem[st.s := Ref(st.s)]), env, y, Ref(st.s))
  {
  }

  lemma GListValYIs(u: Unifier, env: nat, x: nat, y: nat, st: State)
    ensures Step(u, env, GListValY(x, y), st) ==
      var (ok, d) := ListArg(st, x);
      if !ok then HU.Crashed
      else if d.Pair? then
        if d.p >= |st.mem| || !Slot(st, env, y) then HU.Crashed
        else
          var h, t := st.mem[d.p], Y(st, env, y);
          var at := LastRef(st.mem, h, d.p, Addresses(|st.mem|));
          Unify(u, st.(s := if BothBound(st.mem, h, t) then at + 1 else d.p + 1, mode := HU.Read), h, t)
      else if !Unbound(st.mem, d) then NoList(d)
      else if st.hr + 2 < st.asp <= |st.mem| && Slot(st, env, y) then
        var m := st.mem[d.a := Pair(st.hr)];
        HU.Ok(st.(mem := m[st.hr := m[env + y]], hr := st.hr + 2, s := st.hr + 1, mode := HU.Write))
      else HU.Crashed
  {
  }

  /** The argument is no unbound reference to variable y's slot. */
  predicate NotSlot(env: nat, x: nat, y: nat, st: State) {
    !(Unbound(st.mem, ListArg(st, x).1) && ListArg(st, x).1.a == env + y)
  }

  /** A first-occurrence permanent variable: gl_void_vary sets it before it binds the list, so the two agree unless the
      argument is a reference to that very slot. */
  lemma GlVoidVarYIff(u: Unifier, env: nat, x: nat, y: nat, f: Use, st: State)
    requires Exec(u, env, [GetList(x), UVoid, ULastVarY(y)], st) != HU.Crashed
    ensures RelOut(Effects([GetList(x), UVoid, ULastVarY(y)], f), Exec(u, env, [GetList(x), UVoid, ULastVarY(y)], st),
                   Step(u, env, GlVoidVarY(x, y), st)) <==>
              NotSlot(env, x, y, st)
  {
    hide Step, DerefCell, HU.MeetAtom, Effects;
    Effects3(GetList(x), UVoid, ULastVarY(y), f);
    Exec3(u, env, GetList(x), UVoid, ULastVarY(y), st);
    StepList(u, env, x, st);
    GlVoidVarYIs(u, env, x, y, st);
    var o := Step(u, env, GetList(x), st);
    if o.Ok? {
      Exec2(u, env, UVoid, ULastVarY(y), o.st);
      StepVoid(u, env, o.st);
      var p := Step(u, env, UVoid, o.st);
      if p.Ok? { GlVoidVarYIs(u, env, x, y, p.st); }
      var d := ListArg(st, x).1;
      if Unbound(st.mem, d) {
        var q := Step(u, env, GlVoidVarY(x, y), st);
        var e := Exec(u, env, [UVoid, ULastVarY(y)], o.st);
        assert e.Ok? && q.Ok?;
        assert e.st.mem[env + y] == Ref(st.hr + 1);
        assert d.a == env + y ==> q.st.mem[env + y] == Pair(st.hr);
        assert d.a != env + y ==> q.st.mem == e.st.mem;
      }
    }
  }

  /** An argument that is the unbound slot itself: the list is bound to it and the slot's own value is gone. */
  lemma GlVoidVarYCounterexample(u: Unifier, f: Use)
    ensures
      var code, st := [GetList(2), UVoid, ULastVarY(0)],
          HU.State([Con(0), Con(0), Con(0), Con(0), Ref(4)], 0, 3, [Con(0), Con(0), Ref(4)], 0, HU.Read, []);
      Exec(u, 4, code, st).Ok? && !RelOut(Effects(code, f), Exec(u, 4, code, st), Step(u, 4, GlVoidVarY(2, 0), st))
  {
    hide Step, RelOut, Effects;
    var mem := [Con(0), Con(0), Con(0), Con(0), Ref(4)];
    var st := HU.State(mem, 0, 3, [Con(0), Con(0), Ref(4)], 0, HU.Read, []);
    assert DerefCell(mem, Ref(4)) == Ref(4);
    Exec3(u, 4, GetList(2), UVoid, ULastVarY(0), st);
    StepList(u, 4, 2, st);
    var o := Step(u, 4, GetList(2), st);
    Exec2(u, 4, UVoid, ULastVarY(0), o.st);
    StepVoid(u, 4, o.st);
    GlVoidVarYIs(u, 4, 2, 0, Step(u, 4, UVoid, o.st).st);
    GlVoidVarYIff(u, 4, 2, 0, f, st);
  }

  /** The word that a chain of references ends at. */
  lemma {:induction false} LastRefHolds(mem: seq<Cell>, c: Cell, at: nat, left: set<nat>)
    requires c.Ref? && !Deref(mem, c, left).Ref?
    ensures LastRef(mem, c, at, left) < |mem| && mem[LastRef(mem, c, at, left)] == Deref(mem, c, left)
    decreases left
  {
    var d := mem[c.a];
    if d.Ref? {
      LastRefHolds(mem, d, c.a, left - {c.a});
    } else {
      assert LastRef(mem, d, c.a, left - {c.a}) == c.a;
    }
  }

  /** The list's head is no reference, or it or the variable is unbound, or the unifier refuses the two. */
  predicate HeadDirect(u: Unifier, env: nat, x: nat, y: nat, st: State) {
    var d := ListArg(st, x).1;
    !(d.Pair? && d.p < |st.mem| && st.mem[d.p].Ref? && BothBound(st.mem, st.mem[d.p], Y(st, env, y)))
    || u(st.mem, st.hr, st.mem[d.p], Y(st, env, y)) == No
  }

  /** glist_valy sets SREG from the word at which the head's references end, when head and variable are both bound: it
      is get_list and unify_val exactly when that does not happen, or the unifier refuses the two. */
  lemma GListValYIff(u: Unifier, env: nat, x: nat, y: nat, st: State)
    requires Exec(u, env, [GetList(x), UValY(y)], st) != HU.Crashed
    ensures Step(u, env, GListValY(x, y), st) == Exec(u, env, [GetList(x), UValY(y)], st) <==>
              HeadDirect(u, env, x, y, st)
  {
    hide Step;
    Exec2(u, env, GetList(x), UValY(y), st);
    StepList(u, env, x, st);
    GListValYIs(u, env, x, y, st);
    var o := Step(u, env, GetList(x), st);
    if o.Ok? { StepVal(u, env, y, o.st); }
    var d := ListArg(st, x).1;
    if d.Pair? && d.p < |st.mem| {
      var h := st.mem[d.p];
      if h.Ref? && BothBound(st.mem, h, Y(st, env, y)) { LastRefHolds(st.mem, h, d.p, Addresses(|st.mem|)); }
    }
  }

  /** A list [5|7] whose head is a reference to word 2, and a permanent variable that is 5, in word 5. */
  const REFERRED := [Ref(2), Con(7), Con(5), Con(0), Con(0), Con(5)]

  lemma ReferredReads()
    ensures DerefCell(REFERRED, Ref(2)) == Con(5) && DerefCell(REFERRED, Con(5)) == Con(5) &&
      DerefCell(REFERRED, Pair(0)) == Pair(0)
    ensures LastRef(REFERRED, Ref(2), 0, Addresses(6)) == 2
  {
    var all := Addresses(6);
    assert Deref(REFERRED, Con(5), all - {2}) == Con(5);
    assert LastRef(REFERRED, Con(5), 2, all - {2}) == 2;
  }

  /** A list whose head is a reference to a bound word, and a bound permanent variable: glist_valy leaves SREG after the
      word referred to, not after the head. */
  lemma GListValYCounterexample(u: Unifier)
    requires u(REFERRED, 3, Ref(2), Con(5)) == Yes(REFERRED)
    ensures
      var st := HU.State(REFERRED, 3, 4, [Con(0), Con(0), Pair(0)], 0, HU.Read, []);
      && Exec(u, 5, [GetList(2), UValY(0)], st) == HU.Ok(st.(s := 1))
      && Step(u, 5, GListValY(2, 0), st) == HU.Ok(st.(s := 3))
  {
    hide Step, DerefCell, LastRef;
    var st := HU.State(REFERRED, 3, 4, [Con(0), Con(0), Pair(0)], 0, HU.Read, []);
    ReferredReads();
    Exec2(u, 5, GetList(2), UValY(0), st);
    StepList(u, 5, 2, st);
    StepVal(u, 5, 0, st);
    GListValYIs(u, 5, 2, 0, st);
  }

  lemma Var2Is(u: Unifier, env: nat, l: nat, r: nat, st: State)
    ensures Step(u, env, UVarX2(l, r), st) == Pair2(st, l, r, true) &&
      Step(u, env, ULVarX2(l, r), st) == Pair2(st, l, r, false)
  {
  }

  lemma VarX2Exact(u: Unifier, env: nat, l: nat, r: nat, st: State)
    ensures Refines(Exec(u, env, [UVarX(l), UVarX(r)], st), Step(u, env, UVarX2(l, r), st))
  {
    hide Step;
    Exec2(u, env, UVarX(l), UVarX(r), st);
    StepVar(u, env, l, st);
    Var2Is(u, env, l, r, st);
    var o := Step(u, env, UVarX(l), st);
    if o.Ok? { StepVar(u, env, r, o.st); }
  }

  lemma LVarX2Rule(u: Unifier, env: nat, l: nat, r: nat, f: Use, st: State)
    ensures RelOut(Effects([UVarX(l), ULastVarX(r)], f), Exec(u, env, [UVarX(l), ULastVarX(r)], st),
                   Step(u, env, ULVarX2(l, r), st))
  {
    hide Step;
    Exec2(u, env, UVarX(l), ULastVarX(r), st);
    Effects2(UVarX(l), ULastVarX(r), f);
    StepVar(u, env, l, st);
    Var2Is(u, env, l, r, st);
    var o := Step(u, env, UVarX(l), st);
    if o.Ok? { StepLast(u, env, r, o.st); }
  }

  function Copies(i: Instr, n: nat): (c: Code)
    ensures |c| == n && forall j :: 0 <= j < n ==> c[j] == i
  {
    if n == 0 then [] else [i] + Copies(i, n - 1)
  }

  lemma {:induction false} NAtomsExact(u: Unifier, env: nat, n: nat, c: nat, st: State)
    ensures Refines(Exec(u, env, Copies(UAtom(c), n), st), Step(u, env, UNAtoms(n, c), st))
    decreases n
  {
    if n > 0 {
      assert Copies(UAtom(c), n)[1..] == Copies(UAtom(c), n - 1);
      var o := Step(u, env, UAtom(c), st);
      if o.Ok? { NAtomsExact(u, env, n - 1, c, o.st); }
    }
  }

  lemma {:induction false} WriteNAtomsExact(u: Unifier, env: nat, n: nat, c: nat, st: State)
    ensures Refines(Exec(u, env, Copies(WriteAtom(c), n), st), Step(u, env, WriteNAtoms(n, c), st))
    decreases n
  {
    if n > 0 {
      assert Copies(WriteAtom(c), n)[1..] == Copies(WriteAtom(c), n - 1);
      var w := Step(u, env, WriteAtom(c), st);
      if w.Ok? { WriteNAtomsExact(u, env, n - 1, c, w.st); }
    }
  }

  lemma {:induction false} NVoidsExact(u: Unifier, env: nat, n: nat, st: State)
    ensures Refines(Exec(u, env, Copies(UVoid, n), st), Step(u, env, UNVoids(n), st)) || n == 0
    ensures n == 0 ==> Exec(u, env, Copies(UVoid, n), st) == HU.Ok(st)
    decreases n
  {
    if n > 0 {
      assert Copies(UVoid, n)[1..] == Copies(UVoid, n - 1);
      var o := Step(u, env, UVoid, st);
      if o.Ok? { NVoidsExact(u, env, n - 1, o.st); }
    }
  }

  lemma {:induction false} AtomsExact(u: Unifier, env: nat, code: Code, x: nat, st: State)
    ensures
      var cs := AtomsAt(code, x);
      Refines(Exec(u, env, code[..|cs|], st), Atoms(st, cs, x))
    decreases |code|
  {
    var cs := AtomsAt(code, x);
    if cs != [] {
      assert code[..|cs|][1..] == code[1..][..|cs| - 1];
      var o := Step(u, env, code[0], st);
      if o.Ok? { AtomsExact(u, env, code[1..], x + 1, o.st); }
    } else {
      assert code[..0] == [];
    }
  }

  /** Register 1 holds c, or some term, and the rest fails. */
  predicate LoadedAlready(st: State, c: nat, cs: seq<nat>)
    requires 1 < |st.x|
  {
    || st.x[1] == Con(c)
    || (Atoms(st.(x := st.x[1 := Con(c)]), cs, 2).Failed? && HoldsTerm(st.mem, st.x[1]))
  }

  /** a_rc also merges a put_atom into get_atoms, which then compares register 1 instead of loading it: right exactly
      when it holds the atom already, or the rest fails anyway and it holds some term. */
  lemma PutAtomIff(u: Unifier, env: nat, c: nat, cs: seq<nat>, st: State)
    requires 1 < |st.x|
    requires Atoms(st.(x := st.x[1 := Con(c)]), cs, 2) != HU.Crashed
    ensures Step(u, env, GetAtoms([c] + cs), st) == Atoms(st.(x := st.x[1 := Con(c)]), cs, 2) <==>
              LoadedAlready(st, c, cs)
  {
    assert ([c] + cs)[1..] == cs;
    var put := st.(x := st.x[1 := Con(c)]);
    AtomsKeepX(put, cs, 2);
    AtomsPut(st, put, cs, 2);
    var o := HU.MeetAtom(st, DerefCell(st.mem, st.x[1]), c);
    if o.Ok? {
      AtomsKeepX(o.st, cs, 2);
      if Atoms(st, cs, 2).Failed? { AtomsFailMore(st, o.st, cs, 2); }
    }
    if st.x[1] == Con(c) { assert put == st; }
  }

  /** What c refers to is there. */
  predicate HoldsTerm(mem: seq<Cell>, c: Cell) {
    DerefCell(mem, c).Ref? ==> Unbound(mem, DerefCell(mem, c))
  }

  /** Some variables of m are bound to atoms in n. */
  ghost predicate MoreBound(m: seq<Cell>, n: seq<Cell>) {
    |m| == |n| && forall y :: 0 <= y < |m| ==> n[y] == m[y] || (m[y] == Ref(y) && n[y].Con?)
  }

  lemma {:induction false} DerefMore(m: seq<Cell>, n: seq<Cell>, c: Cell, left: set<nat>)
    requires MoreBound(m, n) && forall y: nat :: y < |m| && m[y] == Ref(y) ==> y in left
    ensures
      var d := Deref(m, c, left);
      Deref(n, c, left) == if Unbound(m, d) then n[d.a] else d
    decreases left
  {
    if c.Ref? && c.a < |m| && c.a in left && m[c.a] != c { DerefMore(m, n, m[c.a], left - {c.a}); }
  }

  lemma MeetMore(st: State, q: State, d: Cell, e: Cell, c: nat)
    requires MoreBound(st.mem, q.mem) && q.x == st.x && HU.MeetAtom(st, d, c) != HU.Crashed
    requires e == if Unbound(st.mem, d) then q.mem[d.a] else d
    ensures
      var o, p := HU.MeetAtom(st, d, c), HU.MeetAtom(q, e, c);
      && !p.Crashed? && (o.Failed? ==> p.Failed?)
      && (o.Ok? && p.Ok? ==> MoreBound(o.st.mem, p.st.mem) && o.st.x == p.st.x == st.x)
  {
    hide Deref;
  }

  /** Binding variables to atoms turns no failure into anything else. */
  lemma {:induction false} AtomsFailMore(st: State, q: State, cs: seq<nat>, x: nat)
    requires MoreBound(st.mem, q.mem) && q.x == st.x && Atoms(st, cs, x).Failed?
    ensures Atoms(q, cs, x).Failed?
    decreases |cs|
  {
    hide HU.MeetAtom;
    if cs != [] && x < |st.x| {
      DerefMore(st.mem, q.mem, st.x[x], Addresses(|st.mem|));
      MeetMore(st, q, DerefCell(st.mem, st.x[x]), DerefCell(q.mem, q.x[x]), cs[0]);
      var o := HU.MeetAtom(st, DerefCell(st.mem, st.x[x]), cs[0]);
      var p := HU.MeetAtom(q, DerefCell(q.mem, q.x[x]), cs[0]);
      if o.Ok? && p.Ok? { AtomsFailMore(o.st, p.st, cs[1..], x + 1); }
    }
  }

  lemma {:induction false} AtomsKeepX(st: State, cs: seq<nat>, x: nat)
    ensures Atoms(st, cs, x).Ok? ==> Atoms(st, cs, x).st.x == st.x
    decreases |cs|
  {
    if cs != [] && x < |st.x| {
      var o := HU.MeetAtom(st, DerefCell(st.mem, st.x[x]), cs[0]);
      if o.Ok? { AtomsKeepX(o.st, cs[1..], x + 1); }
    }
  }

  /** The atoms from register 2 on do not read register 1. */
  lemma {:induction false} AtomsPut(st: State, put: State, cs: seq<nat>, x: nat)
    requires 1 < |st.x| == |put.x| && put == st.(x := st.x[1 := put.x[1]]) && x > 1
    ensures
      var o, q := Atoms(st, cs, x), Atoms(put, cs, x);
      if o.Ok? then q == HU.Ok(o.st.(x := put.x)) else q == o
    decreases |cs|
  {
    if cs != [] && x < |st.x| {
      var o := HU.MeetAtom(st, DerefCell(st.mem, st.x[x]), cs[0]);
      if o.Ok? { AtomsPut(o.st, o.st.(x := put.x), cs[1..], x + 1); }
    }
  }

  lemma AtomsIs(u: Unifier, env: nat, cs: seq<nat>, st: State)
    ensures Step(u, env, GetAtoms(cs), st) == Atoms(st, cs, 1)
  {
  }

  lemma StepAtoms(u: Unifier, env: nat, c: nat, x: nat, st: State)
    requires x < |st.x|
    ensures Step(u, env, PutAtom(c, x), st) == HU.Ok(st.(x := st.x[x := Con(c)]))
    ensures Step(u, env, GetAtom(c, x), st) == HU.MeetAtom(st, DerefCell(st.mem, st.x[x]), c)
  {
  }

  /** Register 1 holds another atom: the load replaces it, the merged instruction fails. */
  lemma PutAtomCounterexample(u: Unifier, st: State)
    requires st.x == [Con(0), Con(3), Con(7)]
    ensures Step(u, 0, GetAtoms([5, 7]), st) == HU.Failed
    ensures Exec(u, 0, [PutAtom(5, 1), GetAtom(7, 2)], st) == HU.Ok(st.(x := [Con(0), Con(5), Con(7)]))
  {
    hide Step;
    Exec2(u, 0, PutAtom(5, 1), GetAtom(7, 2), st);
    AtomsIs(u, 0, [5, 7], st);
    StepAtoms(u, 0, 5, 1, st);
    StepAtoms(u, 0, 7, 2, st.(x := st.x[1 := Con(5)]));
    assert DerefCell(st.mem, Con(3)) == Con(3) && DerefCell(st.mem, Con(7)) == Con(7);
  }

  // ---------------------------------------------------------------- whole code

  /** The merge that comes next is one that keeps the meaning of every state. */
  predicate Sound(code: Code, r: (Instr, nat, bool))
    requires code != []
  {
    && !(code[0].PutAtom? && r.0.GetAtoms?)
    && (r.0.PutXXVal? ==> r.0.r1 != r.0.l2)
    && (r.0.UnifyXX? ==> r.0.r != 0)
    && !r.0.GListValY? && !r.0.GlVoidVarY?
  }

  /** So are all. A check of the code alone, before it is assembled. */
  predicate AllSound(code: Code, alone: bool)
    decreases |code|
  {
    code == [] || (var r := First(code, alone); Sound(code, r) && AllSound(code[r.1..], r.2))
  }

  lemma RefinesRel(f: Use, o: Outcome, q: Outcome)
    requires Refines(o, q)
    ensures RelOut(f, o, q)
  {
  }

  /** A run of one instruction, by its length. */
  lemma RunIsCopies(code: Code, i: Instr, k: nat)
    requires k <= RunOf(code, i)
    ensures code[..k] == Copies(i, k)
  {
  }

  lemma PairIs(code: Code)
    ensures |code| > 1 ==> code[..2] == [code[0], code[1]]
    ensures |code| > 2 ==> code[..3] == [code[0], code[1], code[2]]
    ensures |code| > 0 ==> code[..1] == [code[0]]
  {
  }

  /** The merge that comes next does the same in state st. */
  predicate Keeps(u: Unifier, env: nat, code: Code, r: (Instr, nat, bool), st: State)
    requires code != []
  {
    && (code[0].PutAtom? && r.0.GetAtoms? ==> 1 < |st.x| ==> LoadedAlready(st, code[0].c, AtomsAt(code[1..], 2)))
    && (r.0.PutXXVal? ==> r.0.r1 != r.0.l2 || (r.0.l1 < |st.x| && r.0.l2 < |st.x| ==> st.x[r.0.l1] == st.x[r.0.l2]))
    && (r.0.UnifyXX? ==> r.0.r != 0)
    && (r.0.GListValY? ==> HeadDirect(u, env, r.0.x, r.0.y, st))
    && (r.0.GlVoidVarY? ==> NotSlot(env, r.0.x, r.0.y, st))
  }

  lemma SoundKeeps(u: Unifier, env: nat, code: Code, r: (Instr, nat, bool), st: State)
    requires code != [] && Sound(code, r)
    ensures Keeps(u, env, code, r, st)
  {
  }

  /** So do all in the run of the merged code from st. */
  predicate Smooth(u: Unifier, env: nat, code: Code, alone: bool, st: State)
    decreases |code|
  {
    code == [] ||
      (var r := First(code, alone);
       Keeps(u, env, code, r, st) &&
         (var o := Step(u, env, r.0, st);
          o.Ok? ==> Smooth(u, env, code[r.1..], r.2, o.st)))
  }

  /** A list that passes the check runs smoothly from every state. */
  lemma {:induction false} SoundSmooth(u: Unifier, env: nat, code: Code, alone: bool, st: State)
    requires AllSound(code, alone)
    ensures Smooth(u, env, code, alone, st)
    decreases |code|
  {
    hide Step, Sound, Keeps;
    if code != [] {
      var r := First(code, alone);
      SoundKeeps(u, env, code, r, st);
      var o := Step(u, env, r.0, st);
      if o.Ok? { SoundSmooth(u, env, code[r.1..], r.2, o.st); }
    }
  }

  /** The instruction that is assembled does what those it stands for do. */
  lemma FirstRel(u: Unifier, env: nat, code: Code, alone: bool, f: Use, st: State)
    requires code != [] && Checked(code, f) && Keeps(u, env, code, First(code, alone), st)
    ensures
      var r := First(code, alone);
      RelOut(Effects(code[..r.1], f), Exec(u, env, code[..r.1], st), Step(u, env, r.0, st))
  {
    hide Step, Exec, RelOut, Effects, Atoms, Keeps;
    var r := First(code, alone);
    PairIs(code);
    if r.1 == 1 {
      Exec1(u, env, code[0], st);
      RefinesRel(Effects(code[..1], f), Exec(u, env, code[..1], st), Step(u, env, code[0], st));
    } else {
      MergedRel(u, env, code, alone, f, st);
    }
  }

  lemma MergedRel(u: Unifier, env: nat, code: Code, alone: bool, f: Use, st: State)
    requires code != [] && Checked(code, f) && Keeps(u, env, code, First(code, alone), st) && First(code, alone).1 > 1
    ensures
      var r := First(code, alone);
      RelOut(Effects(code[..r.1], f), Exec(u, env, code[..r.1], st), Step(u, env, r.0, st))
  {
    hide Step, Exec, RelOut, Effects, Atoms, Refines, Checked, HeadDirect, NotSlot, LoadedAlready;
    PairIs(code);
    var r := First(code, alone);
    var g, o, q := Effects(code[..r.1], f), Exec(u, env, code[..r.1], st), Step(u, env, r.0, st);
    match code[0]
    case GetAtom(c, x) =>
      AtomsRule(u, env, code, st);
      RefinesRel(g, o, q);
    case PutAtom(c, x) =>
      PutAtomRule(u, env, code, st);
      RefinesRel(g, o, q);
    case PutValX(v, x) =>
      AllowedFirst(code, f);
      if code[1].PutValX? {
        PutXXRule(u, env, v, x, code[1].v, code[1].x, st);
        RefinesRel(g, o, q);
      } else if code[1].GetVarX? {
        MoveRule(u, env, v, code[1].v, f, st);
      } else if code[1].GetValX? {
        MeetXRule(u, env, v, code[1].v, f, st);
      } else if code[1].GetVarY? {
        KeepRule(u, env, v, code[1].y, f, st);
      } else {
        MeetYRule(u, env, v, code[1].y, f, st);
      }
    case PutValY(y, x) =>
      PutYValsExact(u, env, y, x, code[1].y, code[1].x, st);
      RefinesRel(g, o, q);
    case GetVarY(y, x) =>
      GetYYVarExact(u, env, y, x, code[1].y, code[1].x, st);
      RefinesRel(g, o, q);
    case GetList(x) =>
      if code[1].UValX? {
        GListValXExact(u, env, x, code[1].v, st);
        RefinesRel(g, o, q);
      } else if code[1].UValY? {
        ListValYRule(u, env, x, code[1].y, st);
        RefinesRel(g, o, q);
      } else if code[2].ULastVarY? {
        VoidVarYRule(u, env, x, code[2].y, f, st);
      } else if code[2].ULastVoid? {
        GlVoidVoidRule(u, env, x, f, st);
      } else if code[2].ULastVarX? {
        GlVoidVarXRule(u, env, x, code[2].v, f, st);
      } else if code[2].ULastValX? {
        GlVoidValXRule(u, env, x, code[2].v, f, st);
      } else {
        GlVoidValYRule(u, env, x, code[2].y, f, st);
      }
    case UAtom(c) =>
      RunIsCopies(code, code[0], r.1);
      NAtomsExact(u, env, r.1, c, st);
      RefinesRel(g, o, q);
    case WriteAtom(c) =>
      RunIsCopies(code, code[0], r.1);
      WriteNAtomsExact(u, env, r.1, c, st);
      RefinesRel(g, o, q);
    case UVoid => VoidsRule(u, env, code, alone, f, st);
    case UVarX(v) =>
      if code[1].UVarX? {
        VarX2Exact(u, env, v, code[1].v, st);
        RefinesRel(g, o, q);
      } else {
        LVarX2Rule(u, env, v, code[1].v, f, st);
      }
  }

  lemma AllowedFirst(code: Code, f: Use)
    requires code != [] && Checked(code, f)
    ensures Allowed(code[0], f)
  {
  }

  lemma AtomsRule(u: Unifier, env: nat, code: Code, st: State)
    requires code != [] && code[0].GetAtom? && code[0].x == 1
    ensures
      var cs := AtomsAt(code[1..], 2);
      Refines(Exec(u, env, code[..1 + |cs|], st), Step(u, env, GetAtoms([code[0].c] + cs), st))
  {
    AtomsExact(u, env, code, 1, st);
  }

  lemma PutAtomRule(u: Unifier, env: nat, code: Code, st: State)
    requires code != [] && code[0].PutAtom? && code[0].x == 1
    requires 1 < |st.x| ==> LoadedAlready(st, code[0].c, AtomsAt(code[1..], 2))
    ensures
      var cs := AtomsAt(code[1..], 2);
      Refines(Exec(u, env, code[..1 + |cs|], st), Step(u, env, GetAtoms([code[0].c] + cs), st))
  {
    hide Step, LoadedAlready, Atoms;
    var c, cs := code[0].c, AtomsAt(code[1..], 2);
    var front := code[..1 + |cs|];
    assert front[0] == code[0] && front[1..] == code[1..][..|cs|];
    if 1 < |st.x| {
      StepAtoms(u, env, c, 1, st);
      var put := st.(x := st.x[1 := Con(c)]);
      AtomsExact(u, env, code[1..], 2, put);
      if Atoms(put, cs, 2) != HU.Crashed { PutAtomIff(u, env, c, cs, st); }
    } else {
      StepNoRegister(u, env, c, 1, st);
    }
  }

  lemma StepNoRegister(u: Unifier, env: nat, c: nat, x: nat, st: State)
    requires x >= |st.x|
    ensures Step(u, env, PutAtom(c, x), st) == HU.Crashed
  {
  }

  lemma ListValYRule(u: Unifier, env: nat, x: nat, y: nat, st: State)
    requires HeadDirect(u, env, x, y, st)
    ensures Refines(Exec(u, env, [GetList(x), UValY(y)], st), Step(u, env, GListValY(x, y), st))
  {
    hide Step, Exec, HeadDirect;
    if Exec(u, env, [GetList(x), UValY(y)], st) != HU.Crashed { GListValYIff(u, env, x, y, st); }
  }

  lemma VoidVarYRule(u: Unifier, env: nat, x: nat, y: nat, f: Use, st: State)
    requires NotSlot(env, x, y, st)
    ensures RelOut(Effects([GetList(x), UVoid, ULastVarY(y)], f), Exec(u, env, [GetList(x), UVoid, ULastVarY(y)], st),
                   Step(u, env, GlVoidVarY(x, y), st))
  {
    hide Step, Exec, Effects, NotSlot;
    if Exec(u, env, [GetList(x), UVoid, ULastVarY(y)], st) != HU.Crashed { GlVoidVarYIff(u, env, x, y, f, st); }
  }

  lemma PutXXRule(u: Unifier, env: nat, l1: nat, r1: nat, l2: nat, r2: nat, st: State)
    requires r1 != l2 || (l1 < |st.x| && l2 < |st.x| ==> st.x[l1] == st.x[l2])
    ensures Refines(Exec(u, env, [PutValX(l1, r1), PutValX(l2, r2)], st), Step(u, env, PutXXVal(l1, r1, l2, r2), st))
  {
    Exec2(u, env, PutValX(l1, r1), PutValX(l2, r2), st);
    if l1 < |st.x| && r1 < |st.x| && l2 < |st.x| && r2 < |st.x| { PutXXValIff(u, env, l1, r1, l2, r2, st); }
  }

  /** Voids, the last argument of the term perhaps among them. */
  lemma VoidsRule(u: Unifier, env: nat, code: Code, alone: bool, f: Use, st: State)
    requires code != [] && code[0] == UVoid && First(code, alone).1 > 1
    ensures
      var r := First(code, alone);
      RelOut(Effects(code[..r.1], f), Exec(u, env, code[..r.1], st), Step(u, env, r.0, st))
  {
    hide Step, Exec, RelOut, Effects, Refines;
    var r, k := First(code, alone), RunOf(code, UVoid);
    RunIsCopies(code, UVoid, k);
    NVoidsExact(u, env, k, st);
    if r.0.UNVoids? {
      RefinesRel(Effects(code[..k], f), Exec(u, env, code[..k], st), Step(u, env, r.0, st));
    } else {
      assert code[..k + 1] == Copies(UVoid, k) + [ULastVoid];
      LastVoidRule(u, env, k, f, st);
    }
  }

  lemma LastVoidsIs(u: Unifier, env: nat, n: nat, st: State)
    ensures Step(u, env, ULNVoids(n), st) == if st.mode == HU.Read then HU.Ok(st) else Voids(st, n)
  {
  }

  lemma {:induction false} LastVoidRule(u: Unifier, env: nat, k: nat, f: Use, st: State)
    ensures RelOut(Effects(Copies(UVoid, k) + [ULastVoid], f), Exec(u, env, Copies(UVoid, k) + [ULastVoid], st),
                   Step(u, env, ULNVoids(k + 1), st))
    ensures Effects(Copies(UVoid, k) + [ULastVoid], f) == Use(false, false)
    decreases k
  {
    hide Step, DerefCell, HU.MeetAtom;
    LastVoidsIs(u, env, k + 1, st);
    StepLast(u, env, 0, st);
    StepVoid(u, env, st);
    if k == 0 {
      assert Copies(UVoid, 0) + [ULastVoid] == [ULastVoid];
      Exec1(u, env, ULastVoid, st);
      assert [ULastVoid][1..] == [];
    } else {
      var c := Copies(UVoid, k) + [ULastVoid];
      assert c[0] == UVoid && c[1..] == Copies(UVoid, k - 1) + [ULastVoid];
      var o := Step(u, env, UVoid, st);
      LastVoidRule(u, env, k - 1, f, if o.Ok? then o.st else st);
      LastVoidsIs(u, env, k, if o.Ok? then o.st else st);
      assert Effect(UVoid, f) == f;
    }
  }

  lemma {:induction false} ExecSplit(u: Unifier, env: nat, code: Code, n: nat, st: State)
    requires n <= |code|
    ensures
      var o := Exec(u, env, code[..n], st);
      Exec(u, env, code, st) == if o.Ok? then Exec(u, env, code[n..], o.st) else o
    decreases n
  {
    hide Step;
    if n > 0 {
      assert code[..n][1..] == code[1..][..n - 1] && code[1..][n - 1..] == code[n..];
      var o := Step(u, env, code[0], st);
      if o.Ok? { ExecSplit(u, env, code[1..], n - 1, o.st); }
    } else {
      assert code[..0] == [] && code[0..] == code;
    }
  }

  lemma {:induction false} CheckedSplit(code: Code, n: nat, f: Use)
    requires n <= |code| && Checked(code, f)
    ensures Checked(code[..n], f) && Checked(code[n..], Effects(code[..n], f))
    ensures Effects(code, f) == Effects(code[n..], Effects(code[..n], f))
    decreases n
  {
    if n > 0 {
      assert code[..n][1..] == code[1..][..n - 1] && code[1..][n - 1..] == code[n..];
      CheckedSplit(code[1..], n - 1, Effect(code[0], f));
    } else {
      assert code[..0] == [] && code[0..] == code;
    }
  }

  /** Code that uses nothing dead does the same in states that are the same but for what is dead. */
  lemma {:induction false} ExecRel(u: Unifier, env: nat, code: Code, f: Use, a: State, b: State)
    requires Checked(code, f) && Rel(f, a, b)
    ensures RelOut(Effects(code, f), Exec(u, env, code, a), Exec(u, env, code, b))
    decreases |code|
  {
    hide Step, Rel, Allowed, Effect;
    if code != [] {
      StepRel(u, env, code[0], f, a, b);
      var o, q := Step(u, env, code[0], a), Step(u, env, code[0], b);
      if o.Ok? { ExecRel(u, env, code[1..], Effect(code[0], f), o.st, q.st); }
    }
  }

  lemma RelTrans(f: Use, o: Outcome, p: Outcome, q: Outcome)
    requires RelOut(f, o, p) && RelOut(f, p, q)
    ensures RelOut(f, o, q)
  {
  }

  /** The assembled code does what the pseudo-code does, but for what is dead, on every run that comes to no merge in a
      state in which it means something else. */
  lemma {:induction false} PeepRuns(u: Unifier, env: nat, code: Code, alone: bool, f: Use, a: State, b: State)
    requires Checked(code, f) && Smooth(u, env, code, alone, b) && Rel(f, a, b)
    ensures RelOut(Effects(code, f), Exec(u, env, code, a), Exec(u, env, Peep(code, alone), b))
    decreases |code|
  {
    hide Step, Rel, Keeps;
    if code != [] {
      var r := First(code, alone);
      var front, rest := code[..r.1], code[r.1..];
      var g := Effects(front, f);
      CheckedSplit(code, r.1, f);
      ExecSplit(u, env, code, r.1, a);
      ExecRel(u, env, front, f, a, b);
      FirstRel(u, env, code, alone, f, b);
      var o, p, q := Exec(u, env, front, a), Exec(u, env, front, b), Step(u, env, r.0, b);
      RelTrans(g, o, p, q);
      assert ([r.0] + Peep(rest, r.2))[1..] == Peep(rest, r.2);
      if o.Ok? { PeepRuns(u, env, rest, r.2, g, o.st, q.st); }
    }
  }

  /** A list that passes a check of its own, made before it is assembled, may be merged whatever the state. */
  lemma PeepChecked(u: Unifier, env: nat, code: Code, alone: bool, f: Use, a: State, b: State)
    requires Checked(code, f) && AllSound(code, alone) && Rel(f, a, b)
    ensures RelOut(Effects(code, f), Exec(u, env, code, a), Exec(u, env, Peep(code, alone), b))
  {
    SoundSmooth(u, env, code, alone, b);
    PeepRuns(u, env, code, alone, f, a, b);
  }

  // ---------------------------------------------------------------- indexing

  /** switch_on_type: where a dereferenced first argument leads; constants go on to the switch that follows. */
  function OnType(d: Cell, pair: nat, const_: nat, appl: nat, free: nat): nat {
    if d.Pair? then pair else if d.Appl? then appl else if d.Ref? then free else const_
  }

  /** go_on_cons: the one constant of the table, or its default. */
  function GoOnCons(d: Cell, tag: Cell, hit: nat, miss: nat): nat {
    if d == tag then hit else miss
  }

  /** switch_list_nl. */
  function OnList(d: Cell, pair: nat, nil: nat, other: nat, free: nat): nat {
    if d.Ref? then free else if d.Pair? then pair else if d == Con(0) then nil else other
  }

  /** switch_list_nl for [] and one table entry goes where switch_on_type and then go_on_cons go, for every argument,
      exactly when the table is about [] or about nothing that can come, and misses go where compound terms do. */
  lemma SwitchListIff(tag: nat, pair: nat, const_: nat, hit: nat, miss: nat, appl: nat, free: nat)
    ensures
      (forall d: Cell :: !d.Fun? ==>
         OnList(d, pair, hit, appl, free) ==
           (if d.Con? then GoOnCons(d, Con(tag), hit, miss) else OnType(d, pair, const_, appl, free)))
      <==> (if tag == 0 then miss == appl else hit == miss && miss == appl)
  {
    if forall d: Cell :: !d.Fun? ==>
         OnList(d, pair, hit, appl, free) ==
           (if d.Con? then GoOnCons(d, Con(tag), hit, miss) else OnType(d, pair, const_, appl, free)) {
      var zero, one, two, t := Con(0), Con(1), Con(tag + 1), Con(tag);
      assert OnList(zero, pair, hit, appl, free) == GoOnCons(zero, Con(tag), hit, miss);
      assert OnList(two, pair, hit, appl, free) == GoOnCons(two, Con(tag), hit, miss);
      assert OnList(t, pair, hit, appl, free) == GoOnCons(t, Con(tag), hit, miss);
    }
  }
}
