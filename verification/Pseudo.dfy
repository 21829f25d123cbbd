/** The compiler's pseudo-instructions, and what the assembler makes of one of them.

    Addresses count cells: every operand of an instruction takes one, and so does its opcode. */
module Pseudo {

  datatype Var = Perm(y: nat) | Temp(x: nat) | Void

  /** What the assembler asks about the predicate of a call. */
  datatype Pred = Equal | Test | Functor | CPred(test: bool) | User

  datatype Op =
    | GetVar | PutVar | GetVal | PutVal
    | GetAtom | GetNum | PutAtom | PutNum
    | GetFloat | PutFloat | GetBlob | PutBlob | GetDbTerm | PutDbTerm
    | GetList | PutList | GetStruct | PutStruct
    | UnifyVar | UnifyLastVar | UnifyVal | UnifyLastVal
    | UnifyAtom | UnifyLastAtom | UnifyBlob | UnifyDbTerm
    | WriteVar | WriteVal | WriteAtom | WriteBlob
    | UnifyList | UnifyLastList | UnifyStruct | UnifyLastStruct | Pop
    | Allocate | Deallocate | PushOr | Call | Execute | EmptyCall | Cut | CutExit | Procceed | Fail
    | Label | LabelCtl | Jump | Either | OrElse | OrLast
    | TryMe | Try | Retry | Trust | TryIn
    | SwitchOnType | CacheArg | SwitchC | IfC
    | FetchVV | FetchVC | FetchCV | FVal | FVar | F0
    | EnsureSpace | Blob | MarkLive | MarkInit
    | Nop

  /** rnd1 is ve when the instruction is about a variable; table is what arnds, or rnd2 of an if_cons, points to. */
  datatype PInstr = PInstr(op: Op, ve: Var, rnd1: nat, rnd2: nat, pred: Pred, table: seq<nat>)

  type Code = seq<PInstr>

  const NOP := PInstr(Nop, Void, 0, 0, User, [])

  /** cpc->nextInst and on; past the end nothing matches. */
  function At(code: Code, i: nat): PInstr {
    if i < |code| then code[i] else NOP
  }

  function Entry(p: PInstr, i: nat): nat {
    if i < |p.table| then p.table[i] else 0
  }

  /** The emulator's opcodes that come up here; YData is for words that are no instruction. */
  datatype Opcode =
    | YPutYVals | YGetYyVar | YGetYVar | YPutYVar | YGetYVal | YPutYVal | YPutXxVal | YPutXVal | YGetXVal
    | YGetXVar | YPutXVar | YGet2atoms | YGet3atoms | YGet4atoms | YGet5atoms | YGet6atoms | YUnifyAtom
    | YWriteAtom | YUnifyNAtoms | YWriteNAtoms | YUnifyLNVoids | YUnifyVoid | YUnifyNVoids | YUnifyXVar2
    | YUnifyLXVar2 | YUnifyXVar | YUnifyYVar | YWriteXVar | YWriteYVar | YWriteVoid | YWriteNVoids | YGlistValy
    | YGlistValx | YGetList | YGlVoidVary | YGlVoidVarx | YGlVoidValy | YGlVoidValx | YAllocForLogicalPred
    | YAllocate | YPEqual | YPTest | YPFunctor | YCall | YCallCWfail | YCallCpred | YExecuteCpred | YFcall
    | YCutE | YCut | YCutT | YDexecute | YDeallocate | YSwitchListNl | YSwitchOnType | YPTypeTest | YPFunc2f
    | YPOpVv | YPOpVc | YPOpCv | YYstop | YGetAtom | YPutAtom | YGetFloat | YPutFloat | YGetBigint | YPutBigint
    | YGetDbterm | YPutDbterm | YPutList | YGetStruct | YPutStruct | YUnifyLXVar | YUnifyLYVar | YUnifyXVal
    | YUnifyYVal | YUnifyLXVal | YUnifyLYVal | YUnifyLAtom | YUnifyBigint | YUnifyDbterm | YWriteXVal
    | YWriteYVal | YWriteBigint | YUnifyList | YUnifyLList | YUnifyStruct | YUnifyLStruc | YPop | YPopN
    | YExecute | YProcceed | YOpFail | YJump | YEither | YOrElse | YOrLast | YTryMe | YTryClause | YRetry
    | YTrust | YTryIn | YSwitchOnArgType | YSwitchOnCons | YGoOnCons | YIfCons | YEnsureSpace | YData

  /** An instruction as written: its opcode, the cells it takes, the labels it refers to, and its registers, slots,
      constants and counts. */
  datatype Yam = Yam(opc: Opcode, width: nat, labs: seq<nat>, args: seq<nat> := [])

  datatype Operands = XX | XC | CX

  /** do_pass's variables: clinfo, the flags shared by the two passes, and the operands last fetched. */
  datatype Info = Info(alloc: nat, dealloc: bool, noUatom: bool, ystop: bool, failure: nat, blobs: bool, dbterm: bool,
                       operands: Operands)

  /** What one instruction turns into, how many pseudo-instructions that used up, and the variables after it. */
  datatype Out = Out(yams: seq<Yam>, used: nat, info: Info)

  function One(opc: Opcode, width: nat, info: Info, args: seq<nat> := []): Out {
    Out([Yam(opc, width, [], args)], 1, info)
  }

  /** Odd operands are labels, even ones addresses. */
  function ILabels(xs: seq<nat>): (r: seq<nat>)
    ensures forall l :: l in r ==> l in xs
  {
    if xs == [] then [] else (if xs[0] % 2 == 1 then [xs[0]] else []) + ILabels(xs[1..])
  }

  // ---------------------------------------------------------------- the emitters

  predicate IsPerm(p: PInstr) { p.ve.Perm? }

  /** Var_Ref; a void is given register 0. */
  function Offset(p: PInstr): nat {
    match p.ve
    case Perm(y) => y
    case Temp(x) => x
    case Void => 0
  }

  /** get_x_val has the lower of its registers first. */
  function Sorted(x: nat, y: nat): seq<nat> {
    if x > y then [y, x] else [x, y]
  }

  /** a_vr. */
  function Register(op: Op, code: Code, i: nat, f: Info): Out {
    var p, n := At(code, i), At(code, i + 1);
    var four := [Offset(p), p.rnd2, Offset(n), n.rnd2];
    if IsPerm(p) then
      if op == PutVal && n.op == PutVal && IsPerm(n) then Out([Yam(YPutYVals, 5, [], four)], 2, f)
      else if op == GetVar && n.op == GetVar && IsPerm(n) then Out([Yam(YGetYyVar, 5, [], four)], 2, f)
      else
        One(match op case GetVar => YGetYVar case PutVar => YPutYVar case GetVal => YGetYVal case _ => YPutYVal,
            3, f, [Offset(p), p.rnd2])
    else if op == PutVal && n.op == PutVal && !IsPerm(n) then Out([Yam(YPutXxVal, 5, [], four)], 2, f)
    else if op == PutVal && p.rnd2 == 0 && n.rnd2 == 0 && (n.op == GetVar || n.op == GetVal) then
      Out([if IsPerm(n) then Yam(if n.op == GetVar then YGetYVar else YGetYVal, 3, [], [Offset(n), Offset(p)])
           else Yam(if n.op == GetVar then YPutXVal else YGetXVal, 3, [], [Offset(p), Offset(n)])], 2, f)
    else
      One(match op case GetVar => YGetXVar case PutVar => YPutXVar case GetVal => YGetXVal case _ => YPutXVal,
          3, f, if op == GetVal then Sorted(Offset(p), p.rnd2) else [Offset(p), p.rnd2])
  }

  predicate IsGetAtom(p: PInstr, x: nat) {
    p.rnd2 == x && (p.op == GetAtom || p.op == GetNum)
  }

  /** How many of the next instructions load atoms into registers x, x + 1 and on, up to register 6. */
  function AtomRun(code: Code, i: nat, x: nat): (n: nat)
    ensures x <= 6 ==> n <= 7 - x
    decreases 7 - x
  {
    if x <= 6 && IsGetAtom(At(code, i), x) then 1 + AtomRun(code, i + 1, x + 1) else 0
  }

  /** The constants of n instructions. */
  function Constants(code: Code, i: nat, n: nat): seq<nat>
    decreases n
  {
    if n == 0 then [] else [At(code, i).rnd1] + Constants(code, i + 1, n - 1)
  }

  /** a_rc. */
  function RegisterConst(opc: Opcode, code: Code, i: nat, f: Info): Out {
    var n := if At(code, i).rnd2 == 1 then AtomRun(code, i + 1, 2) else 0;
    if n == 0 then One(opc, 3, f, [At(code, i).rnd2, At(code, i).rnd1])
    else
      Out([Yam(match n case 1 => YGet2atoms case 2 => YGet3atoms case 3 => YGet4atoms case 4 => YGet5atoms
                       case _ => YGet6atoms, n + 2, [], Constants(code, i, n + 1))], n + 1, f)
  }

  /** How many instructions from i on have op and constant c. */
  function ConsRun(code: Code, i: nat, op: Op, c: nat): nat
    decreases |code| - i
  {
    if i < |code| && code[i].op == op && code[i].rnd1 == c then 1 + ConsRun(code, i + 1, op, c) else 0
  }

  /** a_ucons. */
  function UnifyConst(op: Op, code: Code, i: nat, f: Info): Out {
    var u, c, n := op == UnifyAtom, At(code, i).rnd1, ConsRun(code, i + 1, op, At(code, i).rnd1);
    if f.noUatom || n == 0 then
      Out([if u then Yam(YUnifyAtom, 3, [], [c]) else Yam(YWriteAtom, 2, [], [c])], 1, f.(noUatom := false))
    else
      Out([if u then Yam(YUnifyNAtoms, 4, [], [n + 1, c]) else Yam(YWriteNAtoms, 3, [], [n + 1, c])], n + 1, f)
  }

  function VoidRun(code: Code, i: nat, op: Op): nat
    decreases |code| - i
  {
    if i < |code| && code[i].op == op && code[i].ve.Void? then 1 + VoidRun(code, i + 1, op) else 0
  }

  /** a_uvar. */
  function UnifyVariable(code: Code, i: nat, f: Info): Out {
    var p, n := At(code, i), At(code, i + 1);
    if p.ve.Void? then
      var k := 1 + VoidRun(code, i + 1, UnifyVar);
      var last := At(code, i + k);
      if last.op == UnifyLastVar && last.ve.Void? then Out([Yam(YUnifyLNVoids, 3, [], [k + 1])], k + 1, f)
      else if k == 1 then One(YUnifyVoid, 2, f)
      else Out([Yam(YUnifyNVoids, 3, [], [k])], k, f)
    else if p.ve.Temp? && n.op == UnifyVar && n.ve.Temp? then
      Out([Yam(YUnifyXVar2, 4, [], [Offset(p), Offset(n)])], 2, f)
    else if p.ve.Temp? && n.op == UnifyLastVar && n.ve.Temp? then
      Out([Yam(YUnifyLXVar2, 4, [], [Offset(p), Offset(n)])], 2, f)
    else One(if IsPerm(p) then YUnifyYVar else YUnifyXVar, 3, f, [Offset(p)])
  }

  /** a_wvar; a variable that is written but never used again is a void here. */
  function WriteVariable(code: Code, i: nat, f: Info): Out {
    var k := VoidRun(code, i + 1, WriteVar);
    if !At(code, i).ve.Void? then
      One(if IsPerm(At(code, i)) then YWriteYVar else YWriteXVar, 2, f, [Offset(At(code, i))])
    else if k == 0 then One(YWriteVoid, 1, f)
    else Out([Yam(YWriteNVoids, 2, [], [k + 1])], k + 1, f)
  }

  /** a_rv. */
  function ListWith(opcx: Opcode, opcy: Opcode, x: nat, v: PInstr): Yam {
    if IsPerm(v) then Yam(opcy, 3, [], [Offset(v), x]) else Yam(opcx, 3, [], [x, Offset(v)])
  }

  /** a_glist. */
  function List(code: Code, i: nat, f: Info): Out {
    var p, n, m := At(code, i), At(code, i + 1), At(code, i + 2);
    if p.rnd2 != 1 && n.op == UnifyVal then
      Out([ListWith(YGlistValx, YGlistValy, p.rnd2, n)], 2, f)
    else if p.rnd2 == 1 && n.op == UnifyAtom then One(YGetList, 2, f.(noUatom := true), [p.rnd2])
    else if p.rnd2 != 1 && n.op == UnifyVar && n.ve.Void? && (m.op == UnifyLastVar || m.op == UnifyLastVal) then
      Out([if m.op == UnifyLastVar then ListWith(YGlVoidVarx, YGlVoidVary, p.rnd2, m)
           else ListWith(YGlVoidValx, YGlVoidValy, p.rnd2, m)], 3, f)
    else One(YGetList, 2, f, [p.rnd2])
  }

  /** check_alloc: the environment that allocate_op only announced. */
  function CheckAlloc(lu: bool, f: Info): (seq<Yam>, Info) {
    if f.alloc == 2 then
      ((if lu then [Yam(YAllocForLogicalPred, 2, [])] else []) + [Yam(YAllocate, 1, [])], f.(alloc := 1))
    else ([], f)
  }

  function After(pre: (seq<Yam>, Info), y: Yam): Out {
    Out(pre.0 + [y], 1, pre.1)
  }

  /** The label of the bitmap of live permanent variables; there is none for an empty environment. */
  function Bitmap(p: PInstr): seq<nat> {
    if p.rnd2 != 0 then [Entry(p, 1)] else []
  }

  /** a_p. */
  function Predicate(opc: Opcode, lu: bool, p: PInstr, f: Info): Out {
    match p.pred
    case Equal => One(YPEqual, 1, f)
    case Test => Out([Yam(YPTest, 2, if f.failure != 0 then [f.failure] else [])], 1, f)
    case Functor => After(CheckAlloc(lu, f), Yam(YPFunctor, 1, []))
    case CPred(test) =>
      if opc == YCall then
        if f.failure != 0 && test then After(CheckAlloc(lu, f), Yam(YCallCWfail, 4, [f.failure]))
        else After(CheckAlloc(lu, f), Yam(YCallCpred, 5, Bitmap(p)))
      else After(CheckAlloc(lu, f), Yam(YExecuteCpred, 3, []))
    case User =>
      if opc == YCall then
        if f.alloc == 2 then
          Out((if lu then [Yam(YAllocForLogicalPred, 2, [])] else []) + [Yam(YFcall, 5, Bitmap(p))], 1,
              f.(alloc := 1))
        else Out([Yam(YCall, 5, Bitmap(p))], 1, f)
      else After(CheckAlloc(lu, f), Yam(opc, 3, []))
  }

  /** a_cut. */
  function CutCode(lu: bool, f: Info): Out {
    var pre := CheckAlloc(lu, f);
    After(pre, Yam(if f.dealloc then YCutE else if pre.1.alloc == 1 then YCut else YCutT, 2, []))
  }

  /** What makes clauses of logical-update predicates that hold blobs protect themselves before they exit. */
  function Protect(lu: bool, f: Info): seq<Yam> {
    if lu && (f.blobs || f.dbterm) && f.alloc == 0 then [Yam(YAllocForLogicalPred, 2, [])] else []
  }

  /** a_deallocate. */
  function DeallocateCode(lu: bool, code: Code, i: nat, f: Info): Out {
    var n := At(code, i + 1);
    if f.alloc != 1 then Out([], 1, f)
    else if n.op == Execute && !n.pred.CPred? then
      var o := Predicate(YDexecute, lu, n, f);
      Out(o.yams, 2, o.info.(dealloc := true))
    else One(YDeallocate, 2, f.(dealloc := true))
  }

  /** is_switch_on_list; 0 stands for the atom []. */
  predicate IsListSwitch(lu: bool, code: Code, i: nat) {
    var p, l, c := At(code, i), At(code, i + 1), At(code, i + 2);
    && !lu && i + 2 < |code| && l.op == Label && c.op == IfC && Entry(p, 1) == l.rnd1
    && c.rnd1 == 1 && Entry(c, 0) == 0 && Entry(p, 0) % 2 == 0 && Entry(c, 3) == Entry(p, 2)
  }

  /** a_4sw. */
  function TypeSwitch(lu: bool, code: Code, i: nat): (seq<Yam>, nat) {
    var p := At(code, i);
    if IsListSwitch(lu, code, i) then
      ([Yam(YSwitchListNl, 6, ILabels([Entry(p, 0), Entry(At(code, i + 2), 1), Entry(p, 2), Entry(p, 3)]))], 3)
    else ([Yam(YSwitchOnType, 5, ILabels(p.table))], 1)
  }

  /** a_f2: type tests, arg/3 and functor/3, arithmetic. Operation numbers up to 9 are type tests, 10 is functor/3. */
  function Builtin(code: Code, i: nat, f: Info): Out {
    var p, n := At(code, i), At(code, i + 1);
    if p.rnd2 <= 9 then Out([Yam(YPTypeTest, 3, if f.failure != 0 then [f.failure] else [])], 1, f)
    else if p.rnd2 == 10 && (n.op == FVar || n.op == F0) then Out([Yam(YPFunc2f, 4, [])], 2, f)
    else
      Out([Yam(match f.operands case XX => YPOpVv case XC => YPOpVc case CX => YPOpCv, OperandCells(f.operands),
          [])], 1, f)
  }

  /** Two registers, or a register and a constant, after the result register. */
  function OperandCells(o: Operands): nat {
    match o
    case XX => 1 + 3
    case XC => 1 + 3
    case CX => 1 + 3
  }

  /** a_gl: nothing in the code of a logical-update predicate; short forms for two to four arguments. */
  function Clause(opc: Opcode, short: bool, lu: bool, arity: nat): (seq<Yam>, nat) {
    if lu then ([], 1) else ([Yam(opc, if short && 2 <= arity <= 4 then 2 else 4, [])], 1)
  }

  predicate Marks(n: Op) {
    n == MarkInit || n == MarkLive || n == Blob
  }

  function YStop(f: Info): seq<Yam> {
    if f.ystop then [] else [Yam(YYstop, 2, [])]
  }

  /** Instructions that are written the same way whatever came before them. */
  predicate IsPlain(op: Op) {
    match op
    case GetFloat | PutFloat | GetBlob | PutBlob | GetDbTerm | PutDbTerm | PutList | GetStruct | PutStruct => true
    case UnifyLastVar | UnifyVal | UnifyLastVal | UnifyLastAtom | UnifyBlob | UnifyDbTerm | WriteVal | WriteBlob => true
    case UnifyList | UnifyLastList | UnifyStruct | UnifyLastStruct | Pop => true
    case Allocate | Fail | LabelCtl | Jump | OrElse | OrLast | TryMe | Try | Retry | Trust | TryIn => true
    case SwitchOnType | CacheArg | SwitchC | IfC | EnsureSpace | Blob | Nop => true
    case _ => false
  }

  function Written(opc: Opcode, width: nat, args: seq<nat> := []): (seq<Yam>, nat) {
    ([Yam(opc, width, [], args)], 1)
  }

  function Referring(opc: Opcode, width: nat, labs: seq<nat>, args: seq<nat> := []): (seq<Yam>, nat) {
    ([Yam(opc, width, labs, args)], 1)
  }

  /** a_uv and a_v: one opcode for temporaries and one for permanent variables. */
  function Variable(opcx: Opcode, opcy: Opcode, width: nat, p: PInstr): (seq<Yam>, nat) {
    Written(if IsPerm(p) then opcy else opcx, width, [Offset(p)])
  }

  /** What a plain instruction is written as, and how many pseudo-instructions that uses up. */
  function Plain(lu: bool, arity: nat, code: Code, i: nat): (seq<Yam>, nat) {
    var p, n := At(code, i), At(code, i + 1);
    match p.op
    case GetFloat => Written(YGetFloat, 4, [p.rnd2, p.rnd1])
    case PutFloat => Written(YPutFloat, 4, [p.rnd2, p.rnd1])
    case GetBlob => Referring(YGetBigint, 3, [p.rnd1], [p.rnd2])
    case PutBlob => Referring(YPutBigint, 3, [p.rnd1], [p.rnd2])
    case GetDbTerm => Written(YGetDbterm, 3, [p.rnd2, p.rnd1])
    case PutDbTerm => Written(YPutDbterm, 3, [p.rnd2, p.rnd1])
    case PutList => Written(YPutList, 2, [p.rnd2])
    case GetStruct => Written(YGetStruct, 4, [p.rnd2, p.rnd1])
    case PutStruct => Written(YPutStruct, 4, [p.rnd2, p.rnd1])
    case UnifyLastVar => Variable(YUnifyLXVar, YUnifyLYVar, 3, p)
    case UnifyVal => Variable(YUnifyXVal, YUnifyYVal, 3, p)
    case UnifyLastVal => Variable(YUnifyLXVal, YUnifyLYVal, 3, p)
    case UnifyLastAtom => Written(YUnifyLAtom, 3, [p.rnd1])
    case UnifyBlob => Referring(YUnifyBigint, 3, [p.rnd1])
    case UnifyDbTerm => Written(YUnifyDbterm, 3, [p.rnd1])
    case WriteVal => Variable(YWriteXVal, YWriteYVal, 2, p)
    case WriteBlob => Referring(YWriteBigint, 2, [p.rnd1])
    case UnifyList => Written(YUnifyList, 2)
    case UnifyLastList => Written(YUnifyLList, 2)
    case UnifyStruct => Written(YUnifyStruct, 4, [p.rnd1])
    case UnifyLastStruct => Written(YUnifyLStruc, 4, [p.rnd1])
    case Pop => if p.rnd1 == 1 then Written(YPop, 1) else Written(YPopN, 2, [p.rnd1])
    case Fail => ([Yam(YOpFail, 1, []), Yam(YProcceed, 2, [])], 1)
    case Jump => if n.op == Label && p.rnd1 == n.rnd1 then ([], 1) else Referring(YJump, 2, [p.rnd1])
    case OrElse => Referring(YOrElse, 5, [p.rnd1, Entry(p, 1)])
    case OrLast => Written(YOrLast, 2)
    case TryMe => if lu then ([], 1) else Referring(YTryMe, 4, [p.rnd1])
    case Try => Clause(YTryClause, true, lu, arity)
    case Retry => Clause(YRetry, true, lu, arity)
    case Trust => Clause(YTrust, false, lu, arity)
    case TryIn => Referring(YTryIn, 2, ILabels([p.rnd1]))
    case SwitchOnType => TypeSwitch(lu, code, i)
    case CacheArg => ([Yam(YSwitchOnArgType, 6, ILabels(n.table))], 2)
    case SwitchC => Written(YSwitchOnCons, 5)
    case IfC => Written(if p.rnd1 == 1 then YGoOnCons else YIfCons, 5)
    case EnsureSpace => if p.rnd1 > 4096 then Written(YEnsureSpace, 5, [p.rnd1]) else ([], 1)
    case Blob => Written(YData, p.rnd1)
    case _ => ([], 1)
  }

  /** What a plain instruction does to the variables. */
  datatype Effect = None | HoldsBlob | HoldsTerm | Announces | Handler | Branches

  function EffectOf(op: Op): Effect {
    match op
    case GetFloat | PutFloat | GetBlob | PutBlob | UnifyBlob | WriteBlob => HoldsBlob
    case GetDbTerm | PutDbTerm | UnifyDbTerm => HoldsTerm
    case Allocate => Announces
    case LabelCtl => Handler
    case OrElse | OrLast => Branches
    case _ => None
  }

  function Apply(e: Effect, x: nat, f: Info): Info {
    match e
    case None => f
    case HoldsBlob => f.(blobs := true)
    case HoldsTerm => f.(dbterm := true)
    case Announces => f.(alloc := 2)
    case Handler => f.(failure := x)
    case Branches => f.(dealloc := false)
  }

  /** Instructions that look ahead and skip, or look at the variables. */
  function Mixed(lu: bool, second: bool, code: Code, i: nat, f: Info): (o: Out)
    ensures 0 < o.used
  {
    var p, n := At(code, i), At(code, i + 1);
    match p.op
    case GetVar | PutVar | GetVal | PutVal => Register(p.op, code, i, f)
    case GetAtom | GetNum => RegisterConst(YGetAtom, code, i, f)
    case PutAtom | PutNum => RegisterConst(YPutAtom, code, i, f)
    case GetList => List(code, i, f)
    case UnifyVar => UnifyVariable(code, i, f)
    case UnifyAtom | WriteAtom => UnifyConst(p.op, code, i, f)
    case WriteVar => WriteVariable(code, i, f)
    case Deallocate => DeallocateCode(lu, code, i, f)
    case PushOr => var pre := CheckAlloc(lu, f); Out(pre.0, 1, pre.1)
    case Call => Predicate(YCall, lu, p, f)
    case Execute => Predicate(YExecute, lu, p, f)
    case EmptyCall =>
      Out([Yam(if f.alloc == 1 && !f.dealloc then YCall else YFcall, 5, if p.rnd2 != 0 then [p.rnd1] else [])], 1, f)
    case Cut => CutCode(lu, f)
    case CutExit => var o := CutCode(lu, f); Out(Protect(lu, f) + o.yams, 1, o.info)
    case Procceed => Out(Protect(lu, f) + [Yam(YProcceed, 2, [])], 1, f)
    case Label =>
      if Marks(n.op) then Out(YStop(f), 1, f.(ystop := true, dealloc := false)) else Out([], 1, f.(dealloc := false))
    case Either => After(CheckAlloc(lu, f), Yam(YEither, 5, [p.rnd1, Entry(p, 1)]))
    case FetchVV => Out([], 1, if second then f.(operands := XX) else f)
    case FetchVC => Out([], 1, if second then f.(operands := XC) else f)
    case FetchCV => Out([], 1, if second then f.(operands := CX) else f)
    case FVal | FVar | F0 => Builtin(code, i, f)
    case MarkLive => Out(YStop(f) + [Yam(YData, 2 + p.rnd1 / 64, [])], 1, f.(ystop := true))
    case MarkInit => Out(YStop(f) + [Yam(YData, 1 + p.rnd1 / 64, [])], 1, f.(ystop := true))
    case _ => Out([], 1, f)
  }

  /** One round of do_pass's switch. Only the second pass notes what operands were fetched. */
  function Emit(lu: bool, arity: nat, second: bool, code: Code, i: nat, f: Info): (o: Out)
    ensures 0 < o.used
  {
    if IsPlain(At(code, i).op) then
      var w := Plain(lu, arity, code, i);
      Out(w.0, if w.1 == 0 then 1 else w.1, Apply(EffectOf(At(code, i).op), At(code, i).rnd1, f))
    else Mixed(lu, second, code, i, f)
  }

  /** What a fetch does to the list in the first pass: the loads of temporaries after it become nops. */
  function Dropped(p: PInstr): PInstr {
    if !p.ve.Perm? && p.op != Nop && p.op != PutVar then p.(op := Nop, rnd2 := if p.ve.Temp? then p.ve.x else 0) else p
  }

  predicate IsFetch(op: Op) { op == FetchVV || op == FetchVC || op == FetchCV }

  function Rewrite(code: Code, i: nat): (r: Code)
    ensures |r| == |code|
    ensures forall j :: 0 <= j < |code| && (j <= i || i + 2 < j || !IsFetch(At(code, i).op)) ==> r[j] == code[j]
  {
    var op := At(code, i).op;
    if !IsFetch(op) || i + 1 >= |code| then code
    else
      var c := code[i + 1 := Dropped(code[i + 1])];
      if op == FetchVV && i + 2 < |code| then c[i + 2 := Dropped(c[i + 2])] else c
  }
}
