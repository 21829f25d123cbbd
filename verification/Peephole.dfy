/** What the assembler writes for head and argument code does what the pseudo-code does: the written words are given a
    meaning of their own, opcode by opcode, and are those of the peephole proved to keep meanings. */
module Peephole {
  import opened Prelude
  import P = Pseudo
  import A = Assembly
  import S = Assembler
  import HU = HeadUnify
  import M = Merge
  import R = MergeRules
  import opened Cells

  /** The pseudo-instructions of head and argument code that can be merged, or come between those. */
  predicate Covered(p: P.PInstr) {
    match p.op
    case GetVar | GetVal | PutVal | UnifyVal | UnifyLastVal => !p.ve.Void?
    case UnifyVar => !p.ve.Perm?
    case GetAtom | GetNum | PutAtom | PutNum | GetList | UnifyLastVar | UnifyAtom | WriteAtom => true
    case _ => false
  }

  function Meaning(p: P.PInstr): M.Instr
    requires Covered(p)
  {
    match p.op
    case GetVar => if p.ve.Temp? then M.GetVarX(p.ve.x, p.rnd2) else M.GetVarY(p.ve.y, p.rnd2)
    case GetVal => if p.ve.Temp? then M.GetValX(p.ve.x, p.rnd2) else M.GetValY(p.ve.y, p.rnd2)
    case PutVal => if p.ve.Temp? then M.PutValX(p.ve.x, p.rnd2) else M.PutValY(p.ve.y, p.rnd2)
    case UnifyVal => if p.ve.Temp? then M.UValX(p.ve.x) else M.UValY(p.ve.y)
    case UnifyLastVal => if p.ve.Temp? then M.ULastValX(p.ve.x) else M.ULastValY(p.ve.y)
    case UnifyVar => if p.ve.Void? then M.UVoid else M.UVarX(p.ve.x)
    case UnifyLastVar => if p.ve.Void? then M.ULastVoid else if p.ve.Temp? then M.ULastVarX(p.ve.x)
        else M.ULastVarY(p.ve.y)
    case GetAtom | GetNum => M.GetAtom(p.rnd1, p.rnd2)
    case PutAtom | PutNum => M.PutAtom(p.rnd1, p.rnd2)
    case GetList => M.GetList(p.rnd2)
    case UnifyAtom => M.UAtom(p.rnd1)
    case WriteAtom => M.WriteAtom(p.rnd1)
  }

  predicate AllCovered(code: P.Code) {
    forall j :: 0 <= j < |code| ==> Covered(code[j])
  }

  function Meanings(code: P.Code): (m: M.Code)
    requires AllCovered(code)
    ensures |m| == |code| && forall j :: 0 <= j < |code| ==> m[j] == Meaning(code[j])
  {
    seq(|code|, j requires 0 <= j < |code| => Meaning(code[j]))
  }

  // ---------------------------------------------------------------- written words

  function Arg(y: P.Yam, k: nat): nat {
    if k < |y.args| then y.args[k] else 0
  }

  function Args(y: P.Yam, n: nat): seq<nat>
    decreases n
  {
    if n == 0 then [] else Args(y, n - 1) + [Arg(y, n - 1)]
  }

  /** What the emulator does on a written word: the opcode says which operands are registers, slots, constants or
      counts. get_x_val unifies two registers. */
  function Word(y: P.Yam): Option<M.Instr> {
    var s := Single(y);
    if s.Some? then s else Merged(y)
  }

  function Single(y: P.Yam): Option<M.Instr> {
    match y.opc
    case YGetAtom => Some(M.GetAtom(Arg(y, 1), Arg(y, 0)))
    case YPutAtom => Some(M.PutAtom(Arg(y, 1), Arg(y, 0)))
    case YGetXVar => Some(M.GetVarX(Arg(y, 0), Arg(y, 1)))
    case YPutXVal => Some(M.PutValX(Arg(y, 0), Arg(y, 1)))
    case YGetXVal => Some(M.UnifyXX(Arg(y, 0), Arg(y, 1)))
    case YGetYVar => Some(M.GetVarY(Arg(y, 0), Arg(y, 1)))
    case YPutYVal => Some(M.PutValY(Arg(y, 0), Arg(y, 1)))
    case YGetYVal => Some(M.GetValY(Arg(y, 0), Arg(y, 1)))
    case YGetList => Some(M.GetList(Arg(y, 0)))
    case YUnifyAtom => Some(M.UAtom(Arg(y, 0)))
    case YUnifyVoid => Some(M.UVoid)
    case YUnifyXVar => Some(M.UVarX(Arg(y, 0)))
    case YUnifyXVal => Some(M.UValX(Arg(y, 0)))
    case YUnifyYVal => Some(M.UValY(Arg(y, 0)))
    case YUnifyLXVar => Some(M.ULastVarX(Arg(y, 0)))
    case YUnifyLYVar => Some(M.ULastVarY(Arg(y, 0)))
    case YUnifyLXVal => Some(M.ULastValX(Arg(y, 0)))
    case YUnifyLYVal => Some(M.ULastValY(Arg(y, 0)))
    case YWriteAtom => Some(M.WriteAtom(Arg(y, 0)))
    case _ => None
  }

  function Merged(y: P.Yam): Option<M.Instr> {
    match y.opc
    case YGet2atoms => Some(M.GetAtoms(Args(y, 2)))
    case YGet3atoms => Some(M.GetAtoms(Args(y, 3)))
    case YGet4atoms => Some(M.GetAtoms(Args(y, 4)))
    case YGet5atoms => Some(M.GetAtoms(Args(y, 5)))
    case YGet6atoms => Some(M.GetAtoms(Args(y, 6)))
    case YPutXxVal => Some(M.PutXXVal(Arg(y, 0), Arg(y, 1), Arg(y, 2), Arg(y, 3)))
    case YPutYVals => Some(M.PutYVals(Arg(y, 0), Arg(y, 1), Arg(y, 2), Arg(y, 3)))
    case YGetYyVar => Some(M.GetYYVar(Arg(y, 0), Arg(y, 1), Arg(y, 2), Arg(y, 3)))
    case YUnifyNAtoms => Some(M.UNAtoms(Arg(y, 0), Arg(y, 1)))
    case YWriteNAtoms => Some(M.WriteNAtoms(Arg(y, 0), Arg(y, 1)))
    case YUnifyNVoids => Some(M.UNVoids(Arg(y, 0)))
    case YUnifyLNVoids => Some(M.ULNVoids(Arg(y, 0)))
    case YUnifyXVar2 => Some(M.UVarX2(Arg(y, 0), Arg(y, 1)))
    case YUnifyLXVar2 => Some(M.ULVarX2(Arg(y, 0), Arg(y, 1)))
    case YGlistValx => Some(M.GListValX(Arg(y, 0), Arg(y, 1)))
    case YGlistValy => Some(M.GListValY(Arg(y, 1), Arg(y, 0)))
    case YGlVoidVarx => Some(M.GlVoidVarX(Arg(y, 0), Arg(y, 1)))
    case YGlVoidVary => Some(M.GlVoidVarY(Arg(y, 1), Arg(y, 0)))
    case YGlVoidValx => Some(M.GlVoidValX(Arg(y, 0), Arg(y, 1)))
    case YGlVoidValy => Some(M.GlVoidValY(Arg(y, 1), Arg(y, 0)))
    case _ => None
  }

  /** Running written words; one that is no head or argument instruction is a crash. */
  function Runs(u: M.Unifier, env: nat, ys: seq<P.Yam>, st: HU.State): HU.Outcome {
    if ys == [] then HU.Ok(st)
    else if Word(ys[0]) == None then HU.Crashed
    else
      var o := M.Step(u, env, Word(ys[0]).value, st);
      if o.Ok? then Runs(u, env, ys[1..], o.st) else o
  }

  /** The word an instruction is written as: comparing two registers, and a last void in scratch register 0, have no
      opcode of their own. */
  function Canon(i: M.Instr): M.Instr {
    match i
    case GetValX(v, x) => if v < x then M.UnifyXX(v, x) else M.UnifyXX(x, v)
    case ULastVoid => M.ULastVarX(0)
    case _ => i
  }

  lemma {:induction false} CanonStep(u: M.Unifier, env: nat, i: M.Instr, st: HU.State)
    ensures M.Step(u, env, Canon(i), st) == M.Step(u, env, i, st)
  {
    hide M.Unify, HU.Simple;
    if !i.GetValX? && !i.ULastVoid? { assert Canon(i) == i; }
  }

  lemma {:induction false} Tail(code: P.Code, i: nat)
    requires AllCovered(code) && i <= |code|
    ensures
      var t := Meanings(code)[i..];
      && |t| == |code| - i
      && (i < |code| ==> t[0] == Meaning(code[i]) && t[1..] == Meanings(code)[i + 1..])
  {
  }

  lemma {:induction false} IsAtom(p: P.PInstr, x: nat)
    requires Covered(p)
    ensures P.IsGetAtom(p, x) <==> Meaning(p).GetAtom? && Meaning(p).x == x
    ensures Meaning(p).GetAtom? ==> Meaning(p).c == p.rnd1
  {
  }

  lemma {:induction false} SameAtoms(code: P.Code, i: nat, x: nat)
    requires AllCovered(code) && i <= |code|
    ensures P.AtomRun(code, i, x) == |R.AtomsAt(Meanings(code)[i..], x)|
    ensures P.Constants(code, i, P.AtomRun(code, i, x)) == R.AtomsAt(Meanings(code)[i..], x)
    decreases |code| - i
  {
    hide Meanings, Meaning, Covered;
    Tail(code, i);
    if i < |code| && x <= 6 {
      IsAtom(code[i], x);
      SameAtoms(code, i + 1, x + 1);
    }
  }

  lemma {:induction false} IsConstant(p: P.PInstr, op: P.Op, c: nat)
    requires Covered(p) && (op == P.UnifyAtom || op == P.WriteAtom)
    ensures p.op == op && p.rnd1 == c <==> Meaning(p) == if op == P.UnifyAtom then M.UAtom(c) else M.WriteAtom(c)
  {
  }

  lemma {:induction false} IsVoid(p: P.PInstr)
    requires Covered(p)
    ensures p.op == P.UnifyVar && p.ve.Void? <==> Meaning(p) == M.UVoid
  {
  }

  lemma {:induction false} SameConstants(code: P.Code, i: nat, op: P.Op, c: nat)
    requires AllCovered(code) && i <= |code| && (op == P.UnifyAtom || op == P.WriteAtom)
    ensures P.ConsRun(code, i, op, c) == R.RunOf(Meanings(code)[i..], if op == P.UnifyAtom then M.UAtom(c)
      else M.WriteAtom(c))
    decreases |code| - i
  {
    hide Meanings, Meaning, Covered;
    Tail(code, i);
    if i < |code| {
      IsConstant(code[i], op, c);
      SameConstants(code, i + 1, op, c);
    }
  }

  lemma {:induction false} SameVoids(code: P.Code, i: nat)
    requires AllCovered(code) && i <= |code|
    ensures P.VoidRun(code, i, P.UnifyVar) == R.RunOf(Meanings(code)[i..], M.UVoid)
    decreases |code| - i
  {
    hide Meanings, Meaning, Covered;
    Tail(code, i);
    if i < |code| {
      IsVoid(code[i]);
      SameVoids(code, i + 1);
    }
  }

  /** What the two agree on: how many pseudo-instructions go into one, which that is, written how, and whether the next
      constant is to be left alone. */
  predicate Agree(o: P.Out, r: (M.Instr, nat, bool)) {
    && o.used == r.1 && o.info.noUatom == r.2
    && |o.yams| == 1 && Word(o.yams[0]) == Some(Canon(r.0))
  }

  /** n is what p means, or both stand for the end of the code. */
  predicate Stands(p: P.PInstr, n: M.Instr) {
    if p == P.NOP then n == M.PutAtom(0, 0) else Covered(p) && n == Meaning(p)
  }

  function Nth(t: M.Code, k: nat): M.Instr {
    if k < |t| then t[k] else M.PutAtom(0, 0)
  }

  lemma {:induction false} NthStands(code: P.Code, i: nat, k: nat)
    requires AllCovered(code) && i <= |code|
    ensures Stands(P.At(code, i + k), Nth(Meanings(code)[i..], k))
  {
  }

  /** Which pseudo-instructions the peephole takes for which. */
  lemma {:induction false} RegisterKinds(p: P.PInstr, n: M.Instr)
    requires Stands(p, n)
    ensures n.PutValX? <==> p.op == P.PutVal && !P.IsPerm(p)
    ensures n.PutValY? <==> p.op == P.PutVal && P.IsPerm(p)
    ensures n.GetVarX? <==> p.op == P.GetVar && !P.IsPerm(p)
    ensures n.GetVarY? <==> p.op == P.GetVar && P.IsPerm(p)
    ensures n.GetValX? <==> p.op == P.GetVal && !P.IsPerm(p)
    ensures n.GetValY? <==> p.op == P.GetVal && P.IsPerm(p)
    ensures p.op == P.PutVal || p.op == P.GetVar || p.op == P.GetVal ==> n.x == p.rnd2
    ensures n.PutValX? || n.GetVarX? || n.GetValX? ==> n.v == P.Offset(p)
    ensures n.PutValY? || n.GetVarY? || n.GetValY? ==> n.y == P.Offset(p)
  {
  }

  lemma {:induction false} LastVarKinds(p: P.PInstr, n: M.Instr)
    requires Stands(p, n)
    ensures n.ULastVoid? <==> p.op == P.UnifyLastVar && p.ve.Void?
    ensures n.ULastVarX? <==> p.op == P.UnifyLastVar && p.ve.Temp?
    ensures n.ULastVarY? <==> p.op == P.UnifyLastVar && P.IsPerm(p)
    ensures (n.ULastVoid? ==> P.Offset(p) == 0) && (n.ULastVarX? ==> n.v == P.Offset(p))
    ensures n.ULastVarY? ==> n.y == P.Offset(p)
  {
    hide Covered, Meaning, Stands;
    if p.op == P.UnifyLastVar { LastVarIs(p, n); } else { LastVarOnly(p, n); }
  }

  lemma {:induction false} LastVarOnly(p: P.PInstr, n: M.Instr)
    requires Stands(p, n) && p.op != P.UnifyLastVar
    ensures !n.ULastVoid? && !n.ULastVarX? && !n.ULastVarY?
  {
  }

  lemma {:induction false} LastVarIs(p: P.PInstr, n: M.Instr)
    requires Stands(p, n) && p.op == P.UnifyLastVar
    ensures n == if p.ve.Void? then M.ULastVoid else if p.ve.Temp? then M.ULastVarX(p.ve.x) else M.ULastVarY(p.ve.y)
  {
  }

  lemma {:induction false} LastValKinds(p: P.PInstr, n: M.Instr)
    requires Stands(p, n)
    ensures n.ULastValX? <==> p.op == P.UnifyLastVal && !P.IsPerm(p)
    ensures n.ULastValY? <==> p.op == P.UnifyLastVal && P.IsPerm(p)
    ensures (n.ULastValX? ==> n.v == P.Offset(p)) && (n.ULastValY? ==> n.y == P.Offset(p))
  {
  }

  lemma {:induction false} VariableKinds(p: P.PInstr, n: M.Instr)
    requires Stands(p, n)
    ensures n.UVoid? <==> p.op == P.UnifyVar && p.ve.Void?
    ensures n.UVarX? <==> p.op == P.UnifyVar && p.ve.Temp?
    ensures p.op == P.UnifyVar ==> !P.IsPerm(p)
    ensures n.UVarX? ==> n.v == P.Offset(p)
  {
  }

  lemma {:induction false} ValueKinds(p: P.PInstr, n: M.Instr)
    requires Stands(p, n)
    ensures n.UValX? <==> p.op == P.UnifyVal && !P.IsPerm(p)
    ensures n.UValY? <==> p.op == P.UnifyVal && P.IsPerm(p)
    ensures (n.UValX? ==> n.v == P.Offset(p)) && (n.UValY? ==> n.y == P.Offset(p))
  {
  }

  lemma {:induction false} AtomKind(p: P.PInstr, n: M.Instr)
    requires Stands(p, n)
    ensures n.UAtom? <==> p.op == P.UnifyAtom
  {
  }

  lemma {:induction false} ListKind(p: P.PInstr, n: M.Instr)
    requires Stands(p, n)
    ensures n.GetList? <==> p.op == P.GetList
    ensures n.GetList? ==> n.x == p.rnd2
  {
  }

  /** What First makes of one value moved and another, when the second may be any. */
  lemma {:induction false} FirstOfMove(t: M.Code, alone: bool)
    requires t != [] && t[0].PutValX?
    ensures
      var r, v, x, n := R.First(t, alone), t[0].v, t[0].x, Nth(t, 1);
      && (n.PutValX? ==> r == (M.PutXXVal(v, x, n.v, n.x), 2, alone))
      && (x == 0 && n.GetVarX? && n.x == 0 ==> r == (M.PutValX(v, n.v), 2, alone))
      && (x == 0 && n.GetValX? && n.x == 0 ==> r == (M.UnifyXX(v, n.v), 2, alone))
      && (x == 0 && n.GetVarY? && n.x == 0 ==> r == (M.GetVarY(n.y, v), 2, alone))
      && (x == 0 && n.GetValY? && n.x == 0 ==> r == (M.GetValY(n.y, v), 2, alone))
      && (!n.PutValX? && !(x == 0 && (n.GetVarX? || n.GetValX? || n.GetVarY? || n.GetValY?) && n.x == 0) ==>
            r == (t[0], 1, alone))
  {
    hide R.AtomsAt, R.RunOf;
  }

  lemma {:induction false} FirstOfRegister(t: M.Code, alone: bool)
    requires t != [] && (t[0].PutValY? || t[0].GetVarX? || t[0].GetVarY? || t[0].GetValX? || t[0].GetValY?)
    ensures
      var r, i, n := R.First(t, alone), t[0], Nth(t, 1);
      && (i.PutValY? && n.PutValY? ==> r == (M.PutYVals(i.y, i.x, n.y, n.x), 2, alone))
      && (i.GetVarY? && n.GetVarY? ==> r == (M.GetYYVar(i.y, i.x, n.y, n.x), 2, alone))
      && (!(i.PutValY? && n.PutValY?) && !(i.GetVarY? && n.GetVarY?) ==> r == (i, 1, alone))
  {
    hide R.AtomsAt, R.RunOf;
  }

  lemma {:induction false} MovesAgree(code: P.Code, i: nat, f: P.Info, t: M.Code)
    requires i < |code| && t != [] && Stands(P.At(code, i), t[0]) && Stands(P.At(code, i + 1), Nth(t, 1))
    requires code[i].op == P.PutVal && !P.IsPerm(code[i])
    ensures Agree(P.Register(P.PutVal, code, i, f), R.First(t, f.noUatom))
  {
    hide Stands, R.First, Nth, Meaning, Covered;
    RegisterKinds(P.At(code, i), t[0]);
    RegisterKinds(P.At(code, i + 1), Nth(t, 1));
    FirstOfMove(t, f.noUatom);
  }

  lemma {:induction false} AlonesAgree(code: P.Code, i: nat, f: P.Info, t: M.Code)
    requires i < |code| && t != [] && Stands(P.At(code, i), t[0])
    requires code[i].op == P.GetVal || (code[i].op == P.GetVar && !P.IsPerm(code[i]))
    ensures Agree(P.Register(code[i].op, code, i, f), R.First(t, f.noUatom))
  {
    hide Stands, R.First, Nth, Meaning, Covered;
    RegisterKinds(P.At(code, i), t[0]);
    FirstOfRegister(t, f.noUatom);
  }

  lemma {:induction false} PairsAgree(code: P.Code, i: nat, f: P.Info, t: M.Code)
    requires i < |code| && t != [] && P.IsPerm(code[i]) && (code[i].op == P.PutVal || code[i].op == P.GetVar)
    requires if code[i].op == P.PutVal then t[0].PutValY? else t[0].GetVarY?
    requires t[0].y == P.Offset(code[i]) && t[0].x == code[i].rnd2
    requires
      var n, p := Nth(t, 1), P.At(code, i + 1);
      && (n.PutValY? || n.GetVarY? ==> n.y == P.Offset(p) && n.x == p.rnd2)
      && (n.PutValY? <==> P.At(code, i + 1).op == P.PutVal && P.IsPerm(P.At(code, i + 1)))
      && (n.GetVarY? <==> P.At(code, i + 1).op == P.GetVar && P.IsPerm(P.At(code, i + 1)))
    ensures Agree(P.Register(code[i].op, code, i, f), R.First(t, f.noUatom))
  {
    hide R.First, Nth;
    FirstOfRegister(t, f.noUatom);
  }

  lemma {:induction false} SlotsAgree(code: P.Code, i: nat, f: P.Info, t: M.Code)
    requires i < |code| && t != [] && Stands(P.At(code, i), t[0]) && Stands(P.At(code, i + 1), Nth(t, 1))
    requires (code[i].op == P.GetVar || code[i].op == P.PutVal) && P.IsPerm(code[i])
    ensures Agree(P.Register(code[i].op, code, i, f), R.First(t, f.noUatom))
  {
    hide Stands, R.First, Nth, Meaning, Covered, Agree, P.Register;
    RegisterKinds(P.At(code, i), t[0]);
    RegisterKinds(P.At(code, i + 1), Nth(t, 1));
    PairsAgree(code, i, f, t);
  }

  lemma {:induction false} RegistersAgree(code: P.Code, i: nat, f: P.Info, t: M.Code)
    requires i < |code| && t != [] && Stands(P.At(code, i), t[0]) && Stands(P.At(code, i + 1), Nth(t, 1))
    requires code[i].op == P.GetVar || code[i].op == P.GetVal || code[i].op == P.PutVal
    ensures Agree(P.Register(code[i].op, code, i, f), R.First(t, f.noUatom))
  {
    hide Stands, R.First, Nth, Meaning, Covered, Agree, P.Register;
    if code[i].op == P.GetVal || (code[i].op == P.GetVar && !P.IsPerm(code[i])) {
      AlonesAgree(code, i, f, t);
    } else if P.IsPerm(code[i]) {
      SlotsAgree(code, i, f, t);
    } else {
      MovesAgree(code, i, f, t);
    }
  }

  lemma {:induction false} FirstOfShortList(t: M.Code, alone: bool)
    requires t != [] && t[0].GetList? && (Nth(t, 1).UVoid? ==> t[0].x == 1)
    ensures
      var r, x, n := R.First(t, alone), t[0].x, Nth(t, 1);
      && r.2 == (alone || (x == 1 && n.UAtom?))
      && (x != 1 && n.UValX? ==> r.1 == 2 && r.0 == M.GListValX(x, n.v))
      && (x != 1 && n.UValY? ==> r.1 == 2 && r.0 == M.GListValY(x, n.y))
      && (x == 1 || (!n.UValX? && !n.UValY?) ==> r.1 == 1 && r.0 == t[0])
  {
    hide R.AtomsAt, R.RunOf;
  }

  lemma {:induction false} FirstOfVoidVar(t: M.Code, alone: bool)
    requires t != [] && t[0].GetList? && t[0].x != 1 && Nth(t, 1).UVoid?
    ensures
      var r, x, m := R.First(t, alone), t[0].x, Nth(t, 2);
      && (m.ULastVoid? ==> r == (M.GlVoidVarX(x, 0), 3, alone))
      && (m.ULastVarX? ==> r == (M.GlVoidVarX(x, m.v), 3, alone))
      && (m.ULastVarY? ==> r == (M.GlVoidVarY(x, m.y), 3, alone))
      && (!m.ULastVoid? && !m.ULastVarX? && !m.ULastVarY? && !m.ULastValX? && !m.ULastValY? ==>
            r == (t[0], 1, alone))
  {
    hide R.AtomsAt, R.RunOf;
  }

  lemma {:induction false} FirstOfVoidVal(t: M.Code, alone: bool)
    requires t != [] && t[0].GetList? && t[0].x != 1 && Nth(t, 1).UVoid?
    ensures
      var r, x, m := R.First(t, alone), t[0].x, Nth(t, 2);
      && (m.ULastValX? ==> r == (M.GlVoidValX(x, m.v), 3, alone))
      && (m.ULastValY? ==> r == (M.GlVoidValY(x, m.y), 3, alone))
  {
    hide R.AtomsAt, R.RunOf;
  }

  lemma {:induction false} ListMeans(y: P.Yam)
    ensures y.opc == P.YGetList ==> Word(y) == Some(M.GetList(Arg(y, 0)))
    ensures y.opc == P.YGlistValx ==> Word(y) == Some(M.GListValX(Arg(y, 0), Arg(y, 1)))
    ensures y.opc == P.YGlistValy ==> Word(y) == Some(M.GListValY(Arg(y, 1), Arg(y, 0)))
  {
    hide Arg, Args;
  }

  lemma {:induction false} VoidListWritten(code: P.Code, i: nat, f: P.Info)
    requires i + 1 < |code| && code[i].rnd2 != 1 && code[i + 1].op == P.UnifyVar && code[i + 1].ve.Void?
    ensures
      var o, x, m := P.List(code, i, f), code[i].rnd2, P.At(code, i + 2);
      && o.info == f
      && (if m.op == P.UnifyLastVar then o.used == 3 && o.yams == [P.ListWith(P.YGlVoidVarx, P.YGlVoidVary, x, m)]
          else if m.op == P.UnifyLastVal then
            o.used == 3 && o.yams == [P.ListWith(P.YGlVoidValx, P.YGlVoidValy, x, m)]
          else o.used == 1 && |o.yams| == 1 && o.yams[0].opc == P.YGetList && o.yams[0].args == [x])
  {
    hide P.ListWith, P.Offset;
  }

  lemma {:induction false} VoidWith(x: nat, m: P.PInstr)
    ensures Word(P.ListWith(P.YGlVoidVarx, P.YGlVoidVary, x, m)) ==
              Some(if P.IsPerm(m) then M.GlVoidVarY(x, P.Offset(m)) else M.GlVoidVarX(x, P.Offset(m)))
    ensures Word(P.ListWith(P.YGlVoidValx, P.YGlVoidValy, x, m)) ==
              Some(if P.IsPerm(m) then M.GlVoidValY(x, P.Offset(m)) else M.GlVoidValX(x, P.Offset(m)))
  {
    hide P.Offset, Args;
  }

  lemma {:induction false} VoidVarAgrees(code: P.Code, i: nat, f: P.Info, t: M.Code)
    requires i < |code| && t != [] && code[i].op == P.GetList && t[0].GetList? && t[0].x == code[i].rnd2 != 1
    requires i + 1 < |code| && code[i + 1].op == P.UnifyVar && code[i + 1].ve.Void? && Nth(t, 1).UVoid?
    requires Stands(P.At(code, i + 2), Nth(t, 2))
    requires P.At(code, i + 2).op == P.UnifyLastVar
    ensures Agree(P.List(code, i, f), R.First(t, f.noUatom))
  {
    hide Stands, R.First, Nth, Meaning, Covered, Word, P.Offset, P.List, P.ListWith, Arg;
    VoidListWritten(code, i, f);
    VoidWith(code[i].rnd2, P.At(code, i + 2));
    LastVarKinds(P.At(code, i + 2), Nth(t, 2));
    FirstOfVoidVar(t, f.noUatom);
  }

  lemma {:induction false} VoidValAgrees(code: P.Code, i: nat, f: P.Info, t: M.Code)
    requires i < |code| && t != [] && code[i].op == P.GetList && t[0].GetList? && t[0].x == code[i].rnd2 != 1
    requires i + 1 < |code| && code[i + 1].op == P.UnifyVar && code[i + 1].ve.Void? && Nth(t, 1).UVoid?
    requires Stands(P.At(code, i + 2), Nth(t, 2))
    requires P.At(code, i + 2).op == P.UnifyLastVal
    ensures Agree(P.List(code, i, f), R.First(t, f.noUatom))
  {
    hide Stands, R.First, Nth, Meaning, Covered, Word, P.Offset, P.List, P.ListWith, Arg;
    VoidListWritten(code, i, f);
    VoidWith(code[i].rnd2, P.At(code, i + 2));
    LastValKinds(P.At(code, i + 2), Nth(t, 2));
    FirstOfVoidVal(t, f.noUatom);
  }

  lemma {:induction false} VoidNoneAgrees(code: P.Code, i: nat, f: P.Info, t: M.Code)
    requires i < |code| && t != [] && code[i].op == P.GetList && t[0].GetList? && t[0].x == code[i].rnd2 != 1
    requires i + 1 < |code| && code[i + 1].op == P.UnifyVar && code[i + 1].ve.Void? && Nth(t, 1).UVoid?
    requires Stands(P.At(code, i + 2), Nth(t, 2))
    requires P.At(code, i + 2).op != P.UnifyLastVar && P.At(code, i + 2).op != P.UnifyLastVal
    ensures Agree(P.List(code, i, f), R.First(t, f.noUatom))
  {
    hide Stands, R.First, Nth, Meaning, Covered, Word, P.Offset, P.List;
    VoidListWritten(code, i, f);
    ListMeans(P.List(code, i, f).yams[0]);
    LastVarKinds(P.At(code, i + 2), Nth(t, 2));
    LastValKinds(P.At(code, i + 2), Nth(t, 2));
    FirstOfVoidVar(t, f.noUatom);
  }

  lemma {:induction false} VoidListAgrees(code: P.Code, i: nat, f: P.Info, t: M.Code)
    requires i < |code| && t != [] && code[i].op == P.GetList && t[0].GetList? && t[0].x == code[i].rnd2 != 1
    requires i + 1 < |code| && code[i + 1].op == P.UnifyVar && code[i + 1].ve.Void? && Nth(t, 1).UVoid?
    requires Stands(P.At(code, i + 2), Nth(t, 2))
    ensures Agree(P.List(code, i, f), R.First(t, f.noUatom))
  {
    hide Stands, R.First, Nth, Agree, P.List;
    if P.At(code, i + 2).op == P.UnifyLastVar {
      VoidVarAgrees(code, i, f, t);
    } else if P.At(code, i + 2).op == P.UnifyLastVal {
      VoidValAgrees(code, i, f, t);
    } else {
      VoidNoneAgrees(code, i, f, t);
    }
  }

  lemma {:induction false} ShortListWritten(code: P.Code, i: nat, f: P.Info)
    requires i < |code| && (P.At(code, i + 1).op == P.UnifyVar && P.At(code, i + 1).ve.Void? ==> code[i].rnd2 == 1)
    ensures
      var o, x, n := P.List(code, i, f), code[i].rnd2, P.At(code, i + 1);
      if x != 1 && n.op == P.UnifyVal then
        o == P.Out([P.ListWith(P.YGlistValx, P.YGlistValy, x, n)], 2, f)
      else
        && o.used == 1 && o.info.noUatom == (f.noUatom || (x == 1 && n.op == P.UnifyAtom)) && |o.yams| == 1
        && o.yams[0].opc == P.YGetList && o.yams[0].args == [x]
  {
    hide P.ListWith, P.Offset;
  }

  lemma {:induction false} ShortListAgrees(code: P.Code, i: nat, f: P.Info, t: M.Code)
    requires i < |code| && t != [] && code[i].op == P.GetList && t[0] == M.GetList(code[i].rnd2)
    requires Stands(P.At(code, i + 1), Nth(t, 1)) && (Nth(t, 1).UVoid? ==> t[0].x == 1)
    ensures Agree(P.List(code, i, f), R.First(t, f.noUatom))
  {
    hide Stands, R.First, Nth, Meaning, Covered, Word, P.Offset, P.List;
    VariableKinds(P.At(code, i + 1), Nth(t, 1));
    ValueKinds(P.At(code, i + 1), Nth(t, 1));
    AtomKind(P.At(code, i + 1), Nth(t, 1));
    ShortListWritten(code, i, f);
    ListMeans(P.List(code, i, f).yams[0]);
    FirstOfShortList(t, f.noUatom);
  }

  lemma {:induction false} ListAgrees(code: P.Code, i: nat, f: P.Info, t: M.Code)
    requires i < |code| && t != [] && Stands(P.At(code, i), t[0]) && code[i].op == P.GetList
    requires Stands(P.At(code, i + 1), Nth(t, 1)) && Stands(P.At(code, i + 2), Nth(t, 2))
    ensures Agree(P.List(code, i, f), R.First(t, f.noUatom))
  {
    hide Stands, R.First, Nth, Meaning, Covered, Agree, P.List;
    ListKind(P.At(code, i), t[0]);
    VariableKinds(P.At(code, i + 1), Nth(t, 1));
    if t[0].x != 1 && Nth(t, 1).UVoid? { VoidListAgrees(code, i, f, t); } else { ShortListAgrees(code, i, f, t); }
  }

  lemma {:induction false} FirstOfAtom(t: M.Code, alone: bool)
    requires t != [] && (t[0].GetAtom? || t[0].PutAtom?)
    ensures
      var r, cs := R.First(t, alone), if t[0].x == 1 then R.AtomsAt(t[1..], 2) else [];
      && |cs| <= 5 && r == (if cs == [] then t[0] else M.GetAtoms([t[0].c] + cs), |cs| + 1, alone)
  {
    hide R.AtomsAt, R.RunOf;
  }

  lemma {:induction false} AtomMeaning(p: P.PInstr, n: M.Instr)
    requires Stands(p, n) && (p.op == P.GetAtom || p.op == P.GetNum || p.op == P.PutAtom || p.op == P.PutNum)
    ensures n == if p.op == P.GetAtom || p.op == P.GetNum then M.GetAtom(p.rnd1, p.rnd2) else M.PutAtom(p.rnd1, p.rnd2)
  {
  }

  lemma {:induction false} AtomsMean(y: P.Yam, n: nat)
    requires 1 <= n <= 5 && |y.args| == n + 1
    requires y.opc == if n == 1 then P.YGet2atoms else if n == 2 then P.YGet3atoms else if n == 3 then P.YGet4atoms
                      else if n == 4 then P.YGet5atoms else P.YGet6atoms
    ensures Word(y) == Some(M.GetAtoms(y.args))
  {
    hide Args, Arg, Word;
    ArgsAll(y, n + 1);
    assert y.args[..n + 1] == y.args;
    AtomsWord(y);
  }

  lemma {:induction false} AtomsWord(y: P.Yam)
    ensures y.opc == P.YGet2atoms ==> Word(y) == Some(M.GetAtoms(Args(y, 2)))
    ensures y.opc == P.YGet3atoms ==> Word(y) == Some(M.GetAtoms(Args(y, 3)))
    ensures y.opc == P.YGet4atoms ==> Word(y) == Some(M.GetAtoms(Args(y, 4)))
    ensures y.opc == P.YGet5atoms ==> Word(y) == Some(M.GetAtoms(Args(y, 5)))
    ensures y.opc == P.YGet6atoms ==> Word(y) == Some(M.GetAtoms(Args(y, 6)))
  {
    hide Args, Arg;
  }

  lemma {:induction false} ArgsAll(y: P.Yam, n: nat)
    requires n <= |y.args|
    ensures Args(y, n) == y.args[..n]
  {
    if n > 0 { ArgsAll(y, n - 1); }
  }

  lemma {:induction false} ConstantAgrees(code: P.Code, i: nat, f: P.Info, t: M.Code, opc: P.Opcode)
    requires i < |code| && t != [] && Stands(P.At(code, i), t[0])
    requires P.AtomRun(code, i + 1, 2) == |R.AtomsAt(t[1..], 2)|
    requires P.Constants(code, i + 1, P.AtomRun(code, i + 1, 2)) == R.AtomsAt(t[1..], 2)
    requires code[i].op == P.GetAtom || code[i].op == P.GetNum || code[i].op == P.PutAtom || code[i].op == P.PutNum
    requires opc == if code[i].op == P.GetAtom || code[i].op == P.GetNum then P.YGetAtom else P.YPutAtom
    ensures Agree(P.RegisterConst(opc, code, i, f), R.First(t, f.noUatom))
  {
    hide Stands, R.First, R.AtomsAt, P.AtomRun, Meaning, Covered, Word, P.Constants;
    AtomMeaning(P.At(code, i), t[0]);
    FirstOfAtom(t, f.noUatom);
    var n := if code[i].rnd2 == 1 then P.AtomRun(code, i + 1, 2) else 0;
    var y := P.RegisterConst(opc, code, i, f).yams[0];
    if n == 0 {
      AtomMeans(y);
    } else {
      ConstantsFrom(code, i, n);
      AtomsMean(y, n);
    }
  }

  lemma {:induction false} ConstantsFrom(code: P.Code, i: nat, n: nat)
    ensures P.Constants(code, i, n + 1) == [P.At(code, i).rnd1] + P.Constants(code, i + 1, n)
    ensures |P.Constants(code, i + 1, n)| == n
    decreases n
  {
    if n > 0 { ConstantsFrom(code, i + 1, n - 1); }
  }

  lemma {:induction false} AtomMeans(y: P.Yam)
    requires y.opc == P.YGetAtom || y.opc == P.YPutAtom
    ensures Word(y) == Some(if y.opc == P.YGetAtom then M.GetAtom(Arg(y, 1), Arg(y, 0))
                            else M.PutAtom(Arg(y, 1), Arg(y, 0)))
  {
  }

  lemma {:induction false} FirstOfConstant(t: M.Code, alone: bool)
    requires t != [] && (t[0].UAtom? || t[0].WriteAtom?)
    ensures
      var r, k := R.First(t, alone), R.RunOf(t, t[0]);
      && (alone || k == 1 ==> r == (t[0], 1, false))
      && (!alone && k != 1 ==>
            r == (if t[0].UAtom? then M.UNAtoms(k, t[0].c) else M.WriteNAtoms(k, t[0].c), k, false))
  {
    hide R.AtomsAt, R.RunOf;
  }

  lemma {:induction false} ConstantMeaning(p: P.PInstr, n: M.Instr)
    requires Stands(p, n) && (p.op == P.UnifyAtom || p.op == P.WriteAtom)
    ensures n == if p.op == P.UnifyAtom then M.UAtom(p.rnd1) else M.WriteAtom(p.rnd1)
  {
  }

  lemma {:induction false} UnifyConstantAgrees(code: P.Code, i: nat, f: P.Info, t: M.Code)
    requires i < |code| && t != [] && (code[i].op == P.UnifyAtom || code[i].op == P.WriteAtom)
    requires t[0] == if code[i].op == P.UnifyAtom then M.UAtom(code[i].rnd1) else M.WriteAtom(code[i].rnd1)
    requires P.ConsRun(code, i + 1, code[i].op, code[i].rnd1) == R.RunOf(t[1..], t[0])
    ensures Agree(P.UnifyConst(code[i].op, code, i, f), R.First(t, f.noUatom))
  {
    hide R.First, R.RunOf, P.ConsRun;
    RunFrom(t, t[0]);
    FirstOfConstant(t, f.noUatom);
  }

  lemma {:induction false} FirstOfVoid(t: M.Code, alone: bool)
    requires t != [] && t[0].UVoid?
    ensures
      var r, k := R.First(t, alone), R.RunOf(t, M.UVoid);
      && (Nth(t, k).ULastVoid? ==> r == (M.ULNVoids(k + 1), k + 1, alone))
      && (!Nth(t, k).ULastVoid? && k == 1 ==> r == (t[0], 1, alone))
      && (!Nth(t, k).ULastVoid? && k != 1 ==> r == (M.UNVoids(k), k, alone))
  {
    hide R.AtomsAt, R.RunOf;
  }

  lemma {:induction false} FirstOfVariable(t: M.Code, alone: bool)
    requires t != [] && t[0].UVarX?
    ensures
      var r, n := R.First(t, alone), Nth(t, 1);
      && (n.UVarX? ==> r == (M.UVarX2(t[0].v, n.v), 2, alone))
      && (n.ULastVarX? ==> r == (M.ULVarX2(t[0].v, n.v), 2, alone))
      && (!n.UVarX? && !n.ULastVarX? ==> r == (t[0], 1, alone))
  {
    hide R.AtomsAt, R.RunOf;
  }

  lemma {:induction false} IsLastVoid(p: P.PInstr, n: M.Instr)
    requires Stands(p, n)
    ensures n.ULastVoid? <==> p.op == P.UnifyLastVar && p.ve.Void?
  {
  }

  lemma {:induction false} VoidsAgree(code: P.Code, i: nat, f: P.Info, t: M.Code)
    requires i < |code| && t != [] && code[i].op == P.UnifyVar && code[i].ve.Void? && t[0].UVoid?
    requires P.VoidRun(code, i + 1, P.UnifyVar) == R.RunOf(t[1..], M.UVoid)
    requires
      var k := R.RunOf(t[1..], M.UVoid);
      Stands(P.At(code, i + 1 + k), Nth(t, 1 + k))
    ensures Agree(P.UnifyVariable(code, i, f), R.First(t, f.noUatom))
  {
    hide R.First, R.RunOf, P.VoidRun, Stands, Nth, Meaning, Covered;
    RunFrom(t, M.UVoid);
    var k := 1 + R.RunOf(t[1..], M.UVoid);
    IsLastVoid(P.At(code, i + k), Nth(t, k));
    FirstOfVoid(t, f.noUatom);
  }

  lemma {:induction false} TemporaryKinds(p: P.PInstr, n: M.Instr)
    requires Stands(p, n)
    ensures n.UVarX? <==> p.op == P.UnifyVar && p.ve.Temp?
    ensures n.ULastVarX? <==> p.op == P.UnifyLastVar && p.ve.Temp?
    ensures n.UVarX? || n.ULastVarX? ==> n.v == P.Offset(p)
  {
  }

  lemma {:induction false} PairWritten(code: P.Code, i: nat, f: P.Info)
    requires i < |code| && code[i].op == P.UnifyVar && code[i].ve.Temp?
    ensures
      var o, p, n := P.UnifyVariable(code, i, f), code[i], P.At(code, i + 1);
      && o.info == f && |o.yams| == 1
      && (if n.ve.Temp? && n.op == P.UnifyVar then
            o.used == 2 && o.yams[0].opc == P.YUnifyXVar2 && o.yams[0].args == [P.Offset(p), P.Offset(n)]
          else if n.ve.Temp? && n.op == P.UnifyLastVar then
            o.used == 2 && o.yams[0].opc == P.YUnifyLXVar2 && o.yams[0].args == [P.Offset(p), P.Offset(n)]
          else o.used == 1 && o.yams[0].opc == P.YUnifyXVar && o.yams[0].args == [P.Offset(p)])
  {
    hide P.Offset;
  }

  lemma {:induction false} PairMeans(y: P.Yam)
    ensures y.opc == P.YUnifyXVar ==> Word(y) == Some(M.UVarX(Arg(y, 0)))
    ensures y.opc == P.YUnifyXVar2 ==> Word(y) == Some(M.UVarX2(Arg(y, 0), Arg(y, 1)))
    ensures y.opc == P.YUnifyLXVar2 ==> Word(y) == Some(M.ULVarX2(Arg(y, 0), Arg(y, 1)))
  {
    hide Arg, Args;
  }

  lemma {:induction false} VariablesAgree(code: P.Code, i: nat, f: P.Info, t: M.Code)
    requires i < |code| && t != [] && code[i].op == P.UnifyVar && code[i].ve.Temp? && t[0].UVarX?
    requires t[0].v == P.Offset(code[i]) && Stands(P.At(code, i + 1), Nth(t, 1))
    ensures Agree(P.UnifyVariable(code, i, f), R.First(t, f.noUatom))
  {
    hide R.First, P.UnifyVariable, Stands, Nth, Meaning, Covered, Word, P.Offset;
    PairWritten(code, i, f);
    PairMeans(P.UnifyVariable(code, i, f).yams[0]);
    TemporaryKinds(P.At(code, i + 1), Nth(t, 1));
    FirstOfVariable(t, f.noUatom);
  }

  lemma {:induction false} FirstOfOther(t: M.Code, alone: bool)
    requires t != []
    requires t[0].UValX? || t[0].UValY? || t[0].ULastVoid? || t[0].ULastVarX? || t[0].ULastVarY? ||
      t[0].ULastValX? || t[0].ULastValY?
    ensures R.First(t, alone) == (t[0], 1, alone)
  {
    hide R.AtomsAt, R.RunOf;
  }

  lemma {:induction false} SingleAgrees(lu: bool, arity: nat, second: bool, code: P.Code, i: nat, f: P.Info, t: M.Code)
    requires i < |code| && t != [] && Stands(P.At(code, i), t[0])
    requires code[i].op == P.UnifyLastVar || code[i].op == P.UnifyVal || code[i].op == P.UnifyLastVal
    ensures Agree(P.Emit(lu, arity, second, code, i, f), R.First(t, f.noUatom))
  {
    hide R.First, Stands, Word, P.Emit;
    var p, n := code[i], t[0];
    LastVarKinds(P.At(code, i), n);
    LastValKinds(P.At(code, i), n);
    ValueKinds(P.At(code, i), n);
    FirstOfOther(t, f.noUatom);
    EmitSingle(lu, arity, second, code, i, f);
    SingleMeans(P.Emit(lu, arity, second, code, i, f).yams[0]);
  }

  /** These are written one for one. */
  lemma {:induction false} EmitSingle(lu: bool, arity: nat, second: bool, code: P.Code, i: nat, f: P.Info)
    requires i < |code| && (code[i].op == P.UnifyLastVar || code[i].op == P.UnifyVal || code[i].op == P.UnifyLastVal)
    ensures
      var o, p := P.Emit(lu, arity, second, code, i, f), code[i];
      && o.used == 1 && o.info == f && |o.yams| == 1 && o.yams[0].args == [P.Offset(p)]
      && o.yams[0].opc ==
           if p.op == P.UnifyLastVar then (if P.IsPerm(p) then P.YUnifyLYVar else P.YUnifyLXVar)
           else if p.op == P.UnifyVal then (if P.IsPerm(p) then P.YUnifyYVal else P.YUnifyXVal)
           else if P.IsPerm(p) then P.YUnifyLYVal else P.YUnifyLXVal
  {
  }

  lemma {:induction false} SingleMeans(y: P.Yam)
    ensures y.opc == P.YUnifyLXVar ==> Word(y) == Some(M.ULastVarX(Arg(y, 0)))
    ensures y.opc == P.YUnifyLYVar ==> Word(y) == Some(M.ULastVarY(Arg(y, 0)))
    ensures y.opc == P.YUnifyXVal ==> Word(y) == Some(M.UValX(Arg(y, 0)))
    ensures y.opc == P.YUnifyYVal ==> Word(y) == Some(M.UValY(Arg(y, 0)))
    ensures y.opc == P.YUnifyLXVal ==> Word(y) == Some(M.ULastValX(Arg(y, 0)))
    ensures y.opc == P.YUnifyLYVal ==> Word(y) == Some(M.ULastValY(Arg(y, 0)))
  {
    hide Merged, Arg;
  }

  lemma {:induction false} RunFrom(t: M.Code, i: M.Instr)
    requires t != [] && t[0] == i
    ensures R.RunOf(t, i) == 1 + R.RunOf(t[1..], i)
  {
  }

  /** On covered code the assembler merges where First does, and into the same instruction. */
  /** What Emit does with an instruction that looks ahead. */
  lemma {:induction false} EmitIs(lu: bool, arity: nat, second: bool, code: P.Code, i: nat, f: P.Info)
    requires i < |code|
    ensures
      var o, op := P.Emit(lu, arity, second, code, i, f), code[i].op;
      && (op == P.GetVar || op == P.GetVal || op == P.PutVal ==> o == P.Register(op, code, i, f))
      && (op == P.GetAtom || op == P.GetNum ==> o == P.RegisterConst(P.YGetAtom, code, i, f))
      && (op == P.PutAtom || op == P.PutNum ==> o == P.RegisterConst(P.YPutAtom, code, i, f))
      && (op == P.UnifyAtom || op == P.WriteAtom ==> o == P.UnifyConst(op, code, i, f))
      && (op == P.UnifyVar ==> o == P.UnifyVariable(code, i, f))
      && (op == P.GetList ==> o == P.List(code, i, f))
  {
  }

  /** On covered code the assembler merges where First does, and into the same instruction. */
  lemma {:induction false} EmitsFirst(lu: bool, arity: nat, second: bool, code: P.Code, i: nat, f: P.Info)
    requires AllCovered(code) && i < |code|
    ensures Agree(P.Emit(lu, arity, second, code, i, f), R.First(Meanings(code)[i..], f.noUatom))
  {
    hide P.Emit, P.Register, P.RegisterConst, P.UnifyConst, P.UnifyVariable, P.List, R.First, Meanings, Agree, Stands,
      Nth, Meaning, P.AtomRun, P.ConsRun, P.VoidRun, R.AtomsAt, R.RunOf, P.Constants, P.At, Word, Canon;
    var t := Meanings(code)[i..];
    Tail(code, i);
    Near(code, i, t);
    EmitIs(lu, arity, second, code, i, f);
    var op := code[i].op;
    if op == P.PutVal || op == P.GetVar || op == P.GetVal {
      RegistersAgree(code, i, f, t);
    } else if op == P.GetAtom || op == P.GetNum || op == P.PutAtom || op == P.PutNum {
      SameAtoms(code, i + 1, 2);
      ConstantAgrees(code, i, f, t, if op == P.GetAtom || op == P.GetNum then P.YGetAtom else P.YPutAtom);
    } else if op == P.UnifyAtom || op == P.WriteAtom {
      SameConstants(code, i + 1, op, code[i].rnd1);
      ConstantMeaning(P.At(code, i), t[0]);
      UnifyConstantAgrees(code, i, f, t);
    } else if op == P.UnifyVar {
      UnifyVariableAgrees(code, i, f, t);
    } else if op == P.GetList {
      ListAgrees(code, i, f, t);
    } else {
      SingleAgrees(lu, arity, second, code, i, f, t);
    }
  }

  lemma {:induction false} UnifyVariableAgrees(code: P.Code, i: nat, f: P.Info, t: M.Code)
    requires AllCovered(code) && i < |code| && t == Meanings(code)[i..] && code[i].op == P.UnifyVar
    ensures Agree(P.UnifyVariable(code, i, f), R.First(t, f.noUatom))
  {
    hide P.UnifyVariable, R.First, Meanings, Agree, Stands, Nth, Meaning, P.VoidRun, R.RunOf, Covered;
    Tail(code, i);
    Near(code, i, t);
    VariableKinds(P.At(code, i), t[0]);
    if code[i].ve.Void? {
      SameVoids(code, i + 1);
      NthStands(code, i, 1 + R.RunOf(t[1..], M.UVoid));
      VoidsAgree(code, i, f, t);
    } else {
      VariablesAgree(code, i, f, t);
    }
  }

  lemma {:induction false} Near(code: P.Code, i: nat, t: M.Code)
    requires AllCovered(code) && i < |code| && t == Meanings(code)[i..]
    ensures P.At(code, i) == code[i] && t != [] && Stands(P.At(code, i), t[0])
    ensures Stands(P.At(code, i + 1), Nth(t, 1)) && Stands(P.At(code, i + 2), Nth(t, 2))
  {
    hide Meaning, Stands;
    NthStands(code, i, 0);
    NthStands(code, i, 1);
    NthStands(code, i, 2);
  }

  /** The words a pass writes from i on. */
  function Words(lu: bool, arity: nat, second: bool, code: P.Code, i: nat, f: P.Info): seq<P.Yam>
    decreases |code| - i
  {
    if i >= |code| then []
    else
      var o := P.Emit(lu, arity, second, code, i, f);
      o.yams + Words(lu, arity, second, code, i + o.used, o.info)
  }

  /** They are what pass 1 puts in the code, but for the ystop that ends it. */
  lemma {:induction false} PutsWords(lu: bool, arity: nat, code: P.Code, i: nat, f: P.Info, a: nat, table: seq<nat>,
      origin: nat)
    ensures
      var ys, ws := A.Yams(A.Puts(lu, arity, code, i, f, a, table, origin)), Words(lu, arity, true, code, i, f);
      ws <= ys && forall k :: |ws| <= k < |ys| ==> ys[k].opc == P.YYstop
    decreases |code| - i
  {
    hide P.Emit, A.PutsOf, A.Puts, Words, P.YStop, A.LaidOut, S.Width, A.Yams;
    A.WriteStep(lu, arity, code, i, f, a, table, origin);
    WordsStep(lu, arity, true, code, i, f);
    if i >= |code| {
      A.LaidOutOf(P.YStop(f), a, table, origin);
      StopIs(f);
    } else {
      var o := P.Emit(lu, arity, true, code, i, f);
      var b := a + S.Width(o.yams);
      A.LaidOutOf(o.yams, a, table, origin);
      PutsWords(lu, arity, code, i + o.used, o.info, b, table, origin);
      A.YamsConcat(A.PutsOf(o.yams, a, table, origin),
                   A.Puts(lu, arity, code, i + o.used, o.info, b, table, origin));
    }
  }

  lemma {:induction false} StopIs(f: P.Info)
    ensures forall k :: 0 <= k < |P.YStop(f)| ==> P.YStop(f)[k].opc == P.YYstop
  {
  }

  /** Running what a whole pass over covered code writes is running the peephole's code. */
  lemma {:induction false} WordsPeep(u: M.Unifier, env: nat, lu: bool, arity: nat, second: bool, code: P.Code, i: nat,
      f: P.Info, st: HU.State)
    requires AllCovered(code) && i <= |code|
    ensures Runs(u, env, Words(lu, arity, second, code, i, f), st) ==
              M.Exec(u, env, R.Peep(Meanings(code)[i..], f.noUatom), st)
    decreases |code| - i
  {
    hide P.Emit, R.First, Meanings, M.Step, Word, Canon, Runs, M.Exec, Words, R.Peep;
    var t := Meanings(code)[i..];
    WordsStep(lu, arity, second, code, i, f);
    PeepStep(t, f.noUatom);
    if i < |code| {
      var o, r := P.Emit(lu, arity, second, code, i, f), R.First(t, f.noUatom);
      EmitsFirst(lu, arity, second, code, i, f);
      assert t[r.1..] == Meanings(code)[i + r.1..];
      CanonStep(u, env, r.0, st);
      RunsStep(u, env, o.yams[0], Words(lu, arity, second, code, i + r.1, o.info), st);
      ExecStep(u, env, r.0, R.Peep(t[r.1..], r.2), st);
      assert o.yams == [o.yams[0]];
      var out := M.Step(u, env, r.0, st);
      if out.Ok? { WordsPeep(u, env, lu, arity, second, code, i + r.1, o.info, out.st); }
    } else {
      RunsNone(u, env, st);
    }
  }

  lemma {:induction false} WordsStep(lu: bool, arity: nat, second: bool, code: P.Code, i: nat, f: P.Info)
    ensures
      var o := P.Emit(lu, arity, second, code, i, f);
      Words(lu, arity, second, code, i, f) ==
        if i >= |code| then [] else o.yams + Words(lu, arity, second, code, i + o.used, o.info)
  {
    hide P.Emit;
  }

  lemma {:induction false} PeepStep(t: M.Code, alone: bool)
    ensures R.Peep(t, alone) == if t == [] then []
                                else [R.First(t, alone).0] + R.Peep(t[R.First(t, alone).1..], R.First(t, alone).2)
  {
  }

  lemma {:induction false} RunsNone(u: M.Unifier, env: nat, st: HU.State)
    ensures Runs(u, env, [], st) == M.Exec(u, env, [], st)
  {
  }

  lemma {:induction false} RunsStep(u: M.Unifier, env: nat, y: P.Yam, ys: seq<P.Yam>, st: HU.State)
    requires Word(y).Some?
    ensures
      var o := M.Step(u, env, Word(y).value, st);
      Runs(u, env, [y] + ys, st) == if o.Ok? then Runs(u, env, ys, o.st) else o
  {
    assert ([y] + ys)[1..] == ys;
  }

  lemma {:induction false} ExecStep(u: M.Unifier, env: nat, i: M.Instr, code: M.Code, st: HU.State)
    ensures
      var o := M.Step(u, env, i, st);
      M.Exec(u, env, [i] + code, st) == if o.Ok? then M.Exec(u, env, code, o.st) else o
  {
    assert ([i] + code)[1..] == code;
  }

  /** The written words do what the pseudo-code does, on every run that comes to no merge in a state in which it means
      something else. */
  lemma {:induction false} WordsRun(u: M.Unifier, env: nat, lu: bool, arity: nat, second: bool, code: P.Code,
      f: P.Info, g: R.Use, a: HU.State, b: HU.State)
    requires AllCovered(code) && R.Checked(Meanings(code), g) && R.Rel(g, a, b)
    requires R.Smooth(u, env, Meanings(code), f.noUatom, b)
    ensures R.RelOut(R.Effects(Meanings(code), g), M.Exec(u, env, Meanings(code), a),
                     Runs(u, env, Words(lu, arity, second, code, 0, f), b))
  {
    hide Meanings, R.Checked, R.Smooth, R.RelOut, R.Effects;
    WordsPeep(u, env, lu, arity, second, code, 0, f, b);
    assert Meanings(code)[0..] == Meanings(code);
    R.PeepRuns(u, env, Meanings(code), f.noUatom, g, a, b);
  }

  /** switch_list_nl is used only where it means what the switches it replaces mean. */
  lemma {:induction false} ListSwitchMeans(lu: bool, code: P.Code, i: nat, const_: nat)
    requires P.IsListSwitch(lu, code, i)
    ensures
      var p, c := P.At(code, i), P.At(code, i + 2);
      var pair, hit, miss, appl, free := P.Entry(p, 0), P.Entry(c, 1), P.Entry(c, 3), P.Entry(p, 2), P.Entry(p, 3);
      forall d: Cell :: !d.Fun? ==>
        R.OnList(d, pair, hit, appl, free) ==
          (if d.Con? then R.GoOnCons(d, Con(P.Entry(c, 0)), hit, miss) else R.OnType(d, pair, const_, appl, free))
  {
    var p, c := P.At(code, i), P.At(code, i + 2);
    R.SwitchListIff(P.Entry(c, 0), P.Entry(p, 0), const_, P.Entry(c, 1), P.Entry(c, 3), P.Entry(p, 2), P.Entry(p, 3));
  }
}
