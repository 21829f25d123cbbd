/** Reading back what the assembler writes: each written word says which pseudo-instruction it stands for, with its
    operands and labels. */
module Disassembly {
  import opened Pseudo

  /** Words written ahead of an instruction: the environment and the protection of the clause, and the end of its
      code. */
  predicate IsPreparation(opc: Opcode) {
    opc == YAllocForLogicalPred || opc == YAllocate || opc == YYstop
  }

  /** What a word for a variable, a constant, a structure or a blob stands for. */
  predicate FitsTerm(y: Yam, p: PInstr) {
    match y.opc
    case YPutXVar => y.width == 3 && p.op == PutVar && !IsPerm(p) && y.args == [Offset(p), p.rnd2]
    case YPutYVar => y.width == 3 && p.op == PutVar && IsPerm(p) && y.args == [Offset(p), p.rnd2]
    case YGetFloat => y.width == 4 && p.op == GetFloat && y.args == [p.rnd2, p.rnd1]
    case YPutFloat => y.width == 4 && p.op == PutFloat && y.args == [p.rnd2, p.rnd1]
    case YGetBigint => y.width == 3 && p.op == GetBlob && y.args == [p.rnd2] && y.labs == [p.rnd1]
    case YPutBigint => y.width == 3 && p.op == PutBlob && y.args == [p.rnd2] && y.labs == [p.rnd1]
    case YGetDbterm => y.width == 3 && p.op == GetDbTerm && y.args == [p.rnd2, p.rnd1]
    case YPutDbterm => y.width == 3 && p.op == PutDbTerm && y.args == [p.rnd2, p.rnd1]
    case YPutList => y.width == 2 && p.op == PutList && y.args == [p.rnd2]
    case YGetStruct => y.width == 4 && p.op == GetStruct && y.args == [p.rnd2, p.rnd1]
    case YPutStruct => y.width == 4 && p.op == PutStruct && y.args == [p.rnd2, p.rnd1]
    case YUnifyYVar => y.width == 3 && p.op == UnifyVar && IsPerm(p) && y.args == [Offset(p)]
    case YUnifyLAtom => y.width == 3 && p.op == UnifyLastAtom && y.args == [p.rnd1]
    case YUnifyBigint => y.width == 3 && p.op == UnifyBlob && y.labs == [p.rnd1]
    case YUnifyDbterm => y.width == 3 && p.op == UnifyDbTerm && y.args == [p.rnd1]
    case YWriteXVar => y.width == 2 && p.op == WriteVar && p.ve.Temp? && y.args == [Offset(p)]
    case YWriteYVar => y.width == 2 && p.op == WriteVar && IsPerm(p) && y.args == [Offset(p)]
    case YWriteVoid => y.width == 1 && p.op == WriteVar && p.ve.Void?
    case YWriteNVoids => y.width == 2 && p.op == WriteVar && p.ve.Void? && |y.args| == 1 && y.args[0] > 1
    case YWriteXVal => y.width == 2 && p.op == WriteVal && !IsPerm(p) && y.args == [Offset(p)]
    case YWriteYVal => y.width == 2 && p.op == WriteVal && IsPerm(p) && y.args == [Offset(p)]
    case YWriteBigint => y.width == 2 && p.op == WriteBlob && y.labs == [p.rnd1]
    case YUnifyList => y.width == 2 && p.op == UnifyList
    case YUnifyLList => y.width == 2 && p.op == UnifyLastList
    case YUnifyStruct => y.width == 4 && p.op == UnifyStruct && y.args == [p.rnd1]
    case YUnifyLStruc => y.width == 4 && p.op == UnifyLastStruct && y.args == [p.rnd1]
    case YPop => y.width == 1 && p.op == Pop && p.rnd1 == 1
    case YPopN => y.width == 2 && p.op == Pop && p.rnd1 != 1 && y.args == [p.rnd1]
    case _ => false
  }

  /** The label of label_ctl, if there is one. */
  function Handled(f: Info): seq<nat> {
    if f.failure == 0 then [] else [f.failure]
  }

  /** What a word for a call stands for. */
  predicate FitsGoal(y: Yam, p: PInstr, f: Info) {
    match y.opc
    case YPEqual => y.width == 1 && p.pred == Equal && IsGoal(p)
    case YPTest => y.width == 2 && p.pred == Test && IsGoal(p) && y.labs == Handled(f)
    case YPFunctor => y.width == 1 && p.pred == Functor && IsGoal(p)
    case YCallCWfail => y.width == 4 && p.op == Call && p.pred == CPred(true) && f.failure != 0 && y.labs == Handled(f)
    case YCallCpred =>
      y.width == 5 && p.op == Call && p.pred.CPred? && (p.pred.test ==> f.failure == 0) && y.labs == Bitmap(p)
    case YExecuteCpred => y.width == 3 && p.op == Execute && p.pred.CPred?
    case YCall =>
      && y.width == 5
      && if p.op == EmptyCall then f.alloc == 1 && !f.dealloc && y.labs == (if p.rnd2 == 0 then [] else [p.rnd1])
      else p.op == Call && p.pred == User && f.alloc != 2 && y.labs == Bitmap(p)
    case YFcall =>
      && y.width == 5
      && if p.op == EmptyCall then (f.alloc != 1 || f.dealloc) && y.labs == (if p.rnd2 == 0 then [] else [p.rnd1])
      else p.op == Call && p.pred == User && f.alloc == 2 && y.labs == Bitmap(p)
    case YExecute => y.width == 3 && p.op == Execute && p.pred == User
    case YDexecute => y.width == 3 && p.op == Execute && p.pred == User
    case _ => false
  }

  /** What a word for a cut, an exit or a built-in stands for; n is the instruction after p. */
  predicate FitsExit(y: Yam, p: PInstr, n: PInstr, f: Info) {
    match y.opc
    case YDeallocate => y.width == 2 && p.op == Deallocate
    case YCutE => y.width == 2 && IsCut(p) && f.dealloc
    case YCut => y.width == 2 && IsCut(p) && !f.dealloc && (f.alloc == 1 || f.alloc == 2)
    case YCutT => y.width == 2 && IsCut(p) && !f.dealloc && f.alloc != 1 && f.alloc != 2
    case YProcceed => y.width == 2 && (p.op == Procceed || p.op == Fail)
    case YPTypeTest => y.width == 3 && IsBuiltin(p) && p.rnd2 <= 9 && y.labs == Handled(f)
    case YPFunc2f => y.width == 4 && IsFunctor2(p, n)
    case YPOpVv => y.width == 4 && IsBuiltin(p) && p.rnd2 >= 10 && !IsFunctor2(p, n) && f.operands == XX
    case YPOpVc => y.width == 4 && IsBuiltin(p) && p.rnd2 >= 10 && !IsFunctor2(p, n) && f.operands == XC
    case YPOpCv => y.width == 4 && IsBuiltin(p) && p.rnd2 >= 10 && !IsFunctor2(p, n) && f.operands == CX
    case _ => false
  }

  predicate IsCut(p: PInstr) { p.op == Cut || p.op == CutExit }

  predicate IsFunctor2(p: PInstr, n: PInstr) {
    IsBuiltin(p) && p.rnd2 == 10 && (n.op == FVar || n.op == F0)
  }

  predicate IsGoal(p: PInstr) { p.op == Call || p.op == Execute }
  predicate IsBuiltin(p: PInstr) { p.op == FVal || p.op == FVar || p.op == F0 }

  /** What a word for a choice or a jump stands for: its label operands are the labels of its alternatives. */
  predicate FitsChoice(y: Yam, p: PInstr) {
    match y.opc
    case YJump => y.width == 2 && p.op == Jump && y.labs == [p.rnd1]
    case YEither => y.width == 5 && p.op == Either && y.labs == [p.rnd1, Entry(p, 1)]
    case YOrElse => y.width == 5 && p.op == OrElse && y.labs == [p.rnd1, Entry(p, 1)]
    case YOrLast => y.width == 2 && p.op == OrLast
    case YTryMe => y.width == 4 && p.op == TryMe && y.labs == [p.rnd1]
    case YTryClause => (y.width == 2 || y.width == 4) && p.op == Try
    case YRetry => (y.width == 2 || y.width == 4) && p.op == Retry
    case YTrust => y.width == 4 && p.op == Trust
    case YTryIn => y.width == 2 && p.op == TryIn && y.labs == if p.rnd1 % 2 == 1 then [p.rnd1] else []
    case YOpFail => y.width == 1 && p.op == Fail
    case _ => false
  }

  /** The cells of a blob, of a bitmap with room for rnd1 + 1 bits, or of a number and such a bitmap. */
  predicate DataFor(p: PInstr, width: nat) {
    || (p.op == Blob && width == p.rnd1) || (p.op == MarkInit && p.rnd1 < 64 * width <= p.rnd1 + 64)
    || (p.op == MarkLive && p.rnd1 < 64 * (width - 1) <= p.rnd1 + 64)
  }

  /** What a word for a switch stands for, and words that are data; n is the instruction after p. */
  predicate FitsSwitch(y: Yam, p: PInstr, n: PInstr) {
    match y.opc
    case YSwitchOnType => y.width == 5 && p.op == SwitchOnType && y.labs == ILabels(p.table)
    case YSwitchListNl => y.width == 6 && p.op == SwitchOnType
    case YSwitchOnArgType => y.width == 6 && p.op == CacheArg && y.labs == ILabels(n.table)
    case YSwitchOnCons => y.width == 5 && p.op == SwitchC
    case YGoOnCons => y.width == 5 && p.op == IfC && p.rnd1 == 1
    case YIfCons => y.width == 5 && p.op == IfC && p.rnd1 != 1
    case YEnsureSpace => y.width == 5 && p.op == EnsureSpace && y.args == [p.rnd1]
    case YData => DataFor(p, y.width)
    case _ => false
  }

  predicate FitsBranch(y: Yam, p: PInstr, n: PInstr) {
    FitsChoice(y, p) || FitsSwitch(y, p, n)
  }

  predicate Fits(y: Yam, p: PInstr, n: PInstr, f: Info) {
    FitsTerm(y, p) || FitsGoal(y, p, f) || FitsExit(y, p, n, f) || FitsBranch(y, p, n)
  }

  /** Pseudo-instructions that head and argument code does not have. */
  predicate IsOther(p: PInstr) {
    match p.op
    case GetVar | GetVal | PutVal | GetAtom | GetNum | PutAtom | PutNum | GetList | UnifyVal | UnifyLastVal => false
    case UnifyLastVar | UnifyAtom | WriteAtom => false
    case UnifyVar => IsPerm(p)
    case _ => true
  }

  /** For which nothing but preparations is written. */
  predicate IsSilent(lu: bool, p: PInstr, n: PInstr, f: Info) {
    match p.op
    case Allocate | LabelCtl | Nop | PushOr | Label | FetchVV | FetchVC | FetchCV => true
    case TryMe | Try | Retry | Trust => lu
    case EnsureSpace => p.rnd1 <= 4096
    case Jump => n.op == Label && n.rnd1 == p.rnd1
    case Deallocate => f.alloc != 1
    case _ => false
  }

  /** The environment that has been announced is made before what needs it. */
  predicate NeedsFrame(p: PInstr) {
    match p.op
    case PushOr | Cut | CutExit | Either => true
    case Call => p.pred == Functor || p.pred.CPred?
    case Execute => p.pred != Equal && p.pred != Test
    case _ => false
  }

  /** What is written first: a clause that holds blobs protects itself before it exits without an environment, an
      environment is made when it is needed, and the code ends before the bitmaps and blobs. */
  function Preparations(lu: bool, p: PInstr, n: PInstr, f: Info): seq<Yam> {
    if (p.op == Label && Marks(n.op)) || p.op == MarkLive || p.op == MarkInit then
      (if f.ystop then [] else [Yam(YYstop, 2, [])])
    else
      var exits, guard := p.op == CutExit || p.op == Procceed, [Yam(YAllocForLogicalPred, 2, [])];
      (if lu && exits && f.alloc == 0 && (f.blobs || f.dbterm) then guard else [])
      + (if lu && f.alloc == 2 && (NeedsFrame(p) || (p.op == Call && p.pred == User)) then guard else [])
      + (if f.alloc == 2 && NeedsFrame(p) then [Yam(YAllocate, 1, [])] else [])
  }

  predicate HasOpcode(ys: seq<Yam>, opc: Opcode) {
    exists k :: 0 <= k < |ys| && ys[k].opc == opc
  }

  /** How many words stand for an instruction itself: op_fail has a procceed after it. */
  function Own(lu: bool, p: PInstr, n: PInstr, f: Info): nat {
    if IsSilent(lu, p, n, f) then 0 else if p.op == Fail then 2 else 1
  }

  /** The preparations, and then words from which the instruction can be read back. */
  ghost predicate Written(lu: bool, p: PInstr, n: PInstr, f: Info, ys: seq<Yam>) {
    var pre := Preparations(lu, p, n, f);
    && |ys| == |pre| + Own(lu, p, n, f) && ys[..|pre|] == pre
    && forall k {:trigger ys[k]} :: |pre| <= k < |ys| ==> Fits(ys[k], p, n, f) && !IsPreparation(ys[k].opc)
  }

  /** Preparations and then one word, or none. */
  lemma {:induction false} WrittenAs(lu: bool, p: PInstr, n: PInstr, f: Info, pre: seq<Yam>, own: seq<Yam>)
    requires pre == Preparations(lu, p, n, f) && |own| == Own(lu, p, n, f)
    requires forall k {:trigger own[k]} :: 0 <= k < |own| ==>
      Fits(own[k], p, n, f) && !IsPreparation(own[k].opc)
    ensures Written(lu, p, n, f, pre + own)
  {
    hide Fits, Preparations, Own, IsPreparation;
    var ys := pre + own;
    assert ys[..|pre|] == pre;
    forall k {:trigger ys[k]} | |pre| <= k < |ys|
      ensures Fits(ys[k], p, n, f) && !IsPreparation(ys[k].opc)
    {
      assert ys[k] == own[k - |pre|];
    }
  }

  lemma {:induction false} WrittenAlone(lu: bool, p: PInstr, n: PInstr, f: Info, y: Yam)
    requires Preparations(lu, p, n, f) == [] && Own(lu, p, n, f) == 1
    requires Fits(y, p, n, f) && !IsPreparation(y.opc)
    ensures Written(lu, p, n, f, [y])
  {
    hide Fits, Preparations, Own, IsPreparation, Written;
    WrittenAs(lu, p, n, f, [], [y]);
    assert [] + [y] == [y];
  }

  lemma {:induction false} WrittenNot(lu: bool, p: PInstr, n: PInstr, f: Info)
    requires Preparations(lu, p, n, f) == [] && Own(lu, p, n, f) == 0
    ensures Written(lu, p, n, f, [])
  {
    hide Fits, Preparations, Own, IsPreparation, Written;
    var none: seq<Yam> := [];
    WrittenAs(lu, p, n, f, none, none);
    assert none + none == none;
  }

  predicate IsPrepared(p: PInstr) {
    match p.op
    case PushOr | Cut | CutExit | Either | Call | Execute | Procceed | Label | MarkLive | MarkInit => true
    case _ => false
  }

  lemma {:induction false} Unprepared(lu: bool, p: PInstr, n: PInstr, f: Info)
    requires !IsPrepared(p)
    ensures Preparations(lu, p, n, f) == []
  {
  }

  // ---------------------------------------------------------------- the plain ones

  predicate IsArgument(op: Op) {
    match op
    case GetFloat | PutFloat | GetBlob | PutBlob | GetDbTerm | PutDbTerm | PutList | GetStruct | PutStruct => true
    case UnifyLastAtom | UnifyBlob | UnifyDbTerm | WriteVal | WriteBlob => true
    case UnifyList | UnifyLastList | UnifyStruct | UnifyLastStruct | Pop => true
    case _ => false
  }

  lemma {:induction false} GetsWritten(lu: bool, arity: nat, code: Code, i: nat)
    requires IsArgument(At(code, i).op)
    ensures
      var ys := Plain(lu, arity, code, i).0;
      |ys| == 1 && FitsTerm(ys[0], At(code, i)) && !IsPreparation(ys[0].opc)
  {
    hide TypeSwitch, Clause, ILabels, Entry;
  }

  predicate IsBranch(op: Op) {
    match op
    case Jump | OrElse | OrLast | TryMe | Try | Retry | Trust | TryIn => true
    case SwitchOnType | CacheArg | SwitchC | IfC | EnsureSpace | Blob => true
    case _ => false
  }

  predicate IsChoice(op: Op) {
    match op
    case Jump | OrElse | OrLast | TryMe | Try | Retry | Trust => true
    case _ => false
  }

  lemma {:induction false} ChoicesWritten(lu: bool, arity: nat, code: Code, i: nat, f: Info)
    requires IsChoice(At(code, i).op)
    ensures
      var ys, p, n := Plain(lu, arity, code, i).0, At(code, i), At(code, i + 1);
      && |ys| == Own(lu, p, n, f)
      && (|ys| == 1 ==> FitsBranch(ys[0], p, n) && !IsPreparation(ys[0].opc))
  {
    hide TypeSwitch, ILabels, Entry, FitsSwitch;
  }

  lemma {:induction false} BranchesWritten(lu: bool, arity: nat, code: Code, i: nat, f: Info)
    requires IsBranch(At(code, i).op)
    ensures
      var ys, p, n := Plain(lu, arity, code, i).0, At(code, i), At(code, i + 1);
      && |ys| == Own(lu, p, n, f)
      && (|ys| == 1 ==> FitsBranch(ys[0], p, n) && !IsPreparation(ys[0].opc))
  {
    hide Plain, FitsBranch, IsPreparation, Own;
    if IsChoice(At(code, i).op) {
      ChoicesWritten(lu, arity, code, i, f);
    } else {
      SwitchesWritten(lu, arity, code, i, f);
    }
  }

  lemma {:induction false} SwitchesWritten(lu: bool, arity: nat, code: Code, i: nat, f: Info)
    requires IsBranch(At(code, i).op) && !IsChoice(At(code, i).op)
    ensures
      var ys, p, n := Plain(lu, arity, code, i).0, At(code, i), At(code, i + 1);
      && |ys| == Own(lu, p, n, f)
      && (|ys| == 1 ==> FitsBranch(ys[0], p, n) && !IsPreparation(ys[0].opc))
  {
    hide Plain, FitsBranch, Own, IsBranch, IsChoice, IsSwitchWord, IsPreparation;
    var p, n, ys := At(code, i), At(code, i + 1), Plain(lu, arity, code, i).0;
    SwitchOwn(lu, p, n, f);
    SwitchWords(lu, arity, code, i);
    if |ys| == 1 { SwitchFits(ys[0], p, n); }
  }

  predicate IsSwitchWord(y: Yam, p: PInstr, n: PInstr) {
    || (y.opc == YTryIn && y.width == 2 && p.op == TryIn && y.labs == if p.rnd1 % 2 == 1 then [p.rnd1] else [])
    || (y.opc == YSwitchListNl && y.width == 6 && p.op == SwitchOnType)
    || (y.opc == YSwitchOnType && y.width == 5 && p.op == SwitchOnType && y.labs == ILabels(p.table))
    || (y.opc == YSwitchOnArgType && y.width == 6 && p.op == CacheArg && y.labs == ILabels(n.table))
    || (y.opc == YSwitchOnCons && y.width == 5 && p.op == SwitchC)
    || (y.opc == YGoOnCons && y.width == 5 && p.op == IfC && p.rnd1 == 1)
    || (y.opc == YIfCons && y.width == 5 && p.op == IfC && p.rnd1 != 1)
    || (y.opc == YEnsureSpace && y.width == 5 && p.op == EnsureSpace && y.args == [p.rnd1])
    || (y.opc == YData && p.op == Blob && y.width == p.rnd1)
  }

  lemma {:induction false} SwitchWords(lu: bool, arity: nat, code: Code, i: nat)
    requires IsBranch(At(code, i).op) && !IsChoice(At(code, i).op)
    ensures
      var ys, p := Plain(lu, arity, code, i).0, At(code, i);
      && |ys| == (if p.op == EnsureSpace && p.rnd1 <= 4096 then 0 else 1)
      && (|ys| == 1 ==> IsSwitchWord(ys[0], p, At(code, i + 1)))
  {
    hide ILabels, Entry, TypeSwitch, Clause;
    TypeSwitchIs(lu, code, i);
    OneLabel(At(code, i).rnd1);
  }

  lemma {:induction false} SwitchOwn(lu: bool, p: PInstr, n: PInstr, f: Info)
    requires IsBranch(p.op) && !IsChoice(p.op)
    ensures Own(lu, p, n, f) == if p.op == EnsureSpace && p.rnd1 <= 4096 then 0 else 1
  {
  }

  lemma {:induction false} TypeSwitchIs(lu: bool, code: Code, i: nat)
    ensures
      var y := TypeSwitch(lu, code, i).0;
      && |y| == 1
      && if y[0].opc == YSwitchListNl then y[0].width == 6
         else y[0].opc == YSwitchOnType && y[0].width == 5 && y[0].labs == ILabels(At(code, i).table)
  {
    hide ILabels, Entry, IsListSwitch;
  }

  lemma {:induction false} SwitchFits(y: Yam, p: PInstr, n: PInstr)
    requires IsSwitchWord(y, p, n)
    ensures FitsBranch(y, p, n) && !IsPreparation(y.opc)
  {
    hide ILabels, Entry, FitsSwitch, FitsChoice;
    if y.opc == YTryIn { TryInFits(y, p); } else { TypeSwitchFits(y, p, n); }
  }

  lemma {:induction false} TryInFits(y: Yam, p: PInstr)
    requires y.opc == YTryIn && y.width == 2 && p.op == TryIn && y.labs == if p.rnd1 % 2 == 1 then [p.rnd1] else []
    ensures FitsChoice(y, p)
  {
    hide Entry;
  }

  lemma {:induction false} TypeSwitchFits(y: Yam, p: PInstr, n: PInstr)
    requires IsSwitchWord(y, p, n) && y.opc != YTryIn
    ensures FitsSwitch(y, p, n)
  {
    hide ILabels, Entry;
  }

  lemma {:induction false} OneLabel(l: nat)
    ensures ILabels([l]) == if l % 2 == 1 then [l] else []
  {
    assert [l][1..] == [];
  }

  lemma {:induction false} PlainWritten(lu: bool, arity: nat, second: bool, code: Code, i: nat, f: Info)
    requires i < |code| && IsOther(code[i]) && IsPlain(code[i].op)
    ensures Written(lu, code[i], At(code, i + 1), f, Emit(lu, arity, second, code, i, f).yams)
  {
    hide FitsTerm, FitsGoal, FitsExit, FitsBranch, IsPreparation, Written, Plain, Preparations, Mixed;
    var p, n, ys := code[i], At(code, i + 1), Plain(lu, arity, code, i).0;
    Unprepared(lu, p, n, f);
    if IsArgument(p.op) {
      GetsWritten(lu, arity, code, i);
      WrittenAlone(lu, p, n, f, ys[0]);
      assert ys == [ys[0]];
    } else if IsBranch(p.op) {
      BranchesWritten(lu, arity, code, i, f);
      if |ys| == 1 {
        WrittenAlone(lu, p, n, f, ys[0]);
        assert ys == [ys[0]];
      } else {
        WrittenNot(lu, p, n, f);
      }
    } else {
      RestWritten(lu, arity, code, i, f);
    }
  }

  lemma {:induction false} FailWritten(lu: bool, p: PInstr, n: PInstr, f: Info)
    requires p.op == Fail
    ensures Written(lu, p, n, f, [Yam(YOpFail, 1, []), Yam(YProcceed, 2, [])])
  {
    hide Written, Preparations, FitsTerm, FitsGoal, FitsExit, FitsBranch, IsPreparation, Own;
    var own := [Yam(YOpFail, 1, []), Yam(YProcceed, 2, [])];
    Unprepared(lu, p, n, f);
    FailFits(lu, p, n, f);
    WrittenAs(lu, p, n, f, [], own);
    assert [] + own == own;
  }

  lemma {:induction false} FailFits(lu: bool, p: PInstr, n: PInstr, f: Info)
    requires p.op == Fail
    ensures Own(lu, p, n, f) == 2 && !IsPreparation(YOpFail) && !IsPreparation(YProcceed)
    ensures FitsBranch(Yam(YOpFail, 1, []), p, n) && FitsExit(Yam(YProcceed, 2, []), p, n, f)
  {
    hide FitsChoice, FitsSwitch, FitsExit, Own;
    FailOwns(lu, p, n, f);
    OpFailFits(p);
    ProcceedFits(p, n, f);
  }

  lemma {:induction false} FailOwns(lu: bool, p: PInstr, n: PInstr, f: Info)
    requires p.op == Fail
    ensures Own(lu, p, n, f) == 2
  {
  }

  lemma {:induction false} OpFailFits(p: PInstr)
    requires p.op == Fail
    ensures FitsChoice(Yam(YOpFail, 1, []), p)
  {
    hide Entry;
  }

  lemma {:induction false} ProcceedFits(p: PInstr, n: PInstr, f: Info)
    requires p.op == Fail || p.op == Procceed
    ensures FitsExit(Yam(YProcceed, 2, []), p, n, f)
  {
    hide IsFunctor2, Handled;
  }

  lemma {:induction false} RestIs(lu: bool, arity: nat, code: Code, i: nat)
    requires i < |code| && IsPlain(code[i].op) && IsOther(code[i]) && !IsArgument(code[i].op) && !IsBranch(code[i].op)
    ensures code[i].op == Fail || code[i].op == Allocate || code[i].op == LabelCtl || code[i].op == Nop
    ensures Plain(lu, arity, code, i).0 ==
              if code[i].op == Fail then [Yam(YOpFail, 1, []), Yam(YProcceed, 2, [])] else []
  {
    hide TypeSwitch, Clause, ILabels;
  }

  lemma {:induction false} RestWritten(lu: bool, arity: nat, code: Code, i: nat, f: Info)
    requires i < |code| && IsPlain(code[i].op) && IsOther(code[i]) && !IsArgument(code[i].op) && !IsBranch(code[i].op)
    ensures Written(lu, code[i], At(code, i + 1), f, Plain(lu, arity, code, i).0)
  {
    hide Written, Preparations, Plain, IsPlain, IsOther, IsArgument, IsBranch;
    var p, n := code[i], At(code, i + 1);
    RestIs(lu, arity, code, i);
    Unprepared(lu, p, n, f);
    if p.op == Fail { FailWritten(lu, p, n, f); } else { WrittenNot(lu, p, n, f); }
  }

  // ---------------------------------------------------------------- those that look at the variables

  lemma {:induction false} FrameWritten(lu: bool, f: Info)
    ensures CheckAlloc(lu, f).0 == (if lu && f.alloc == 2 then [Yam(YAllocForLogicalPred, 2, [])] else []) +
                                   (if f.alloc == 2 then [Yam(YAllocate, 1, [])] else [])
  {
  }

  /** A word after the environment that it needs. */
  lemma {:induction false} WrittenInFrame(lu: bool, p: PInstr, n: PInstr, f: Info, y: Yam)
    requires NeedsFrame(p) && (p.op == CutExit ==> !(lu && f.alloc == 0 && (f.blobs || f.dbterm)))
    requires Own(lu, p, n, f) == 1 && Fits(y, p, n, f) && !IsPreparation(y.opc)
    ensures Written(lu, p, n, f, CheckAlloc(lu, f).0 + [y])
  {
    hide Fits, Own, IsPreparation, Written, CheckAlloc;
    FrameWritten(lu, f);
    WrittenAs(lu, p, n, f, CheckAlloc(lu, f).0, [y]);
  }

  function GoalFrame(lu: bool, p: PInstr, f: Info): seq<Yam> {
    if p.pred == Equal || p.pred == Test then []
    else if p.op == Call && p.pred == User then
      (if lu && f.alloc == 2 then [Yam(YAllocForLogicalPred, 2, [])] else [])
    else CheckAlloc(lu, f).0
  }

  lemma {:induction false} GoalPrepared(lu: bool, p: PInstr, n: PInstr, f: Info)
    requires IsGoal(p)
    ensures GoalFrame(lu, p, f) == Preparations(lu, p, n, f) && Own(lu, p, n, f) == 1
  {
    hide CheckAlloc;
    FrameWritten(lu, f);
  }

  lemma {:induction false} GoalFits(opc: Opcode, lu: bool, p: PInstr, f: Info) returns (y: Yam)
    requires if p.op == Call then opc == YCall else p.op == Execute && (opc == YExecute || opc == YDexecute)
    ensures Predicate(opc, lu, p, f).yams == GoalFrame(lu, p, f) + [y]
    ensures FitsGoal(y, p, f) && !IsPreparation(y.opc)
    ensures y.opc == YDexecute <==> p.op == Execute && p.pred == User && opc == YDexecute
  {
    hide CheckAlloc, Bitmap, FitsGoal, Predicate, GoalFrame, IsPreparation;
    var ys := Predicate(opc, lu, p, f).yams;
    GoalShape(opc, lu, p, f);
    y := ys[|ys| - 1];
    if p.op == Call { CallFits(lu, p, f, y); } else { ExecuteFits(opc, lu, p, f, y); }
  }

  lemma {:induction false} GoalShape(opc: Opcode, lu: bool, p: PInstr, f: Info)
    requires if p.op == Call then opc == YCall else p.op == Execute && (opc == YExecute || opc == YDexecute)
    ensures
      var ys := Predicate(opc, lu, p, f).yams;
      && ys != [] && ys == GoalFrame(lu, p, f) + [ys[|ys| - 1]] && !IsPreparation(ys[|ys| - 1].opc)
      && (ys[|ys| - 1].opc == YDexecute <==> p.op == Execute && p.pred == User && opc == YDexecute)
  {
    hide CheckAlloc, Bitmap, IsPreparation;
    var ys := Predicate(opc, lu, p, f).yams;
    GoalOpcode(opc, lu, p, f);
  }

  lemma {:induction false} GoalOpcode(opc: Opcode, lu: bool, p: PInstr, f: Info)
    requires if p.op == Call then opc == YCall else p.op == Execute && (opc == YExecute || opc == YDexecute)
    ensures
      var ys := Predicate(opc, lu, p, f).yams;
      ys != [] && !IsPreparation(ys[|ys| - 1].opc)
  {
    hide CheckAlloc, Bitmap;
  }

  lemma {:induction false} CallFits(lu: bool, p: PInstr, f: Info, y: Yam)
    requires p.op == Call
    requires
      var ys := Predicate(YCall, lu, p, f).yams;
      y == ys[|ys| - 1]
    ensures FitsGoal(y, p, f)
  {
    hide FitsGoal;
    if p.pred == User || p.pred.CPred? { UserFits(lu, p, f, y); } else { InlineFits(YCall, lu, p, f, y); }
  }

  lemma {:induction false} UserFits(lu: bool, p: PInstr, f: Info, y: Yam)
    requires p.op == Call && (p.pred == User || p.pred.CPred?)
    requires
      var ys := Predicate(YCall, lu, p, f).yams;
      y == ys[|ys| - 1]
    ensures FitsGoal(y, p, f)
  {
    hide CheckAlloc, Bitmap;
  }

  lemma {:induction false} InlineFits(opc: Opcode, lu: bool, p: PInstr, f: Info, y: Yam)
    requires IsGoal(p) && p.pred != User && !p.pred.CPred?
    requires
      var ys := Predicate(opc, lu, p, f).yams;
      y == ys[|ys| - 1]
    ensures FitsGoal(y, p, f)
  {
    hide CheckAlloc, Bitmap;
  }

  lemma {:induction false} ExecuteFits(opc: Opcode, lu: bool, p: PInstr, f: Info, y: Yam)
    requires p.op == Execute && (opc == YExecute || opc == YDexecute)
    requires
      var ys := Predicate(opc, lu, p, f).yams;
      y == ys[|ys| - 1]
    ensures FitsGoal(y, p, f)
  {
    hide CheckAlloc, Bitmap;
  }

  /** No dexecute is among the preparations. */
  lemma {:induction false} FrameHas(lu: bool, p: PInstr, f: Info, y: Yam)
    ensures HasOpcode(GoalFrame(lu, p, f) + [y], YDexecute) <==> y.opc == YDexecute
  {
    var pre := GoalFrame(lu, p, f);
    assert forall k :: 0 <= k < |pre| ==> pre[k].opc == YAllocForLogicalPred || pre[k].opc == YAllocate;
    if y.opc == YDexecute { assert (pre + [y])[|pre|] == y; }
  }

  lemma {:induction false} GoalWritten(opc: Opcode, lu: bool, p: PInstr, n: PInstr, f: Info)
    requires if p.op == Call then opc == YCall else p.op == Execute && (opc == YExecute || opc == YDexecute)
    ensures Written(lu, p, n, f, Predicate(opc, lu, p, f).yams)
    ensures HasOpcode(Predicate(opc, lu, p, f).yams, YDexecute) <==>
      p.op == Execute && p.pred == User && opc == YDexecute
  {
    hide Written, HasOpcode, FitsTerm, FitsGoal, FitsExit, FitsBranch, Own, IsPreparation, Predicate, GoalFrame;
    var y := GoalFits(opc, lu, p, f);
    GoalPrepared(lu, p, n, f);
    WrittenAs(lu, p, n, f, GoalFrame(lu, p, f), [y]);
    FrameHas(lu, p, f, y);
  }

  lemma {:induction false} CutWritten(lu: bool, p: PInstr, n: PInstr, f: Info)
    requires p.op == Cut
    ensures Written(lu, p, n, f, CutCode(lu, f).yams)
  {
    hide Written, CheckAlloc;
    CutShape(lu, f);
    WrittenInFrame(lu, p, n, f, CutWord(f));
  }

  function CutWord(f: Info): Yam {
    Yam(if f.dealloc then YCutE else if f.alloc == 1 || f.alloc == 2 then YCut else YCutT, 2, [])
  }

  lemma {:induction false} CutShape(lu: bool, f: Info)
    ensures CutCode(lu, f).yams == CheckAlloc(lu, f).0 + [CutWord(f)]
  {
  }

  /** An exit, with the protection of a clause that has no environment. */
  lemma {:induction false} ExitWritten(lu: bool, p: PInstr, n: PInstr, f: Info, ys: seq<Yam>)
    requires if p.op == CutExit then ys == Protect(lu, f) + CutCode(lu, f).yams
             else p.op == Procceed && ys == Protect(lu, f) + [Yam(YProcceed, 2, [])]
    ensures Written(lu, p, n, f, ys)
  {
    hide Written, CheckAlloc, Protect, CutCode, Preparations, FitsTerm, FitsGoal, FitsExit, FitsBranch,
      CutWord;
    var pre := Protect(lu, f) + (if p.op == CutExit then CheckAlloc(lu, f).0 else []);
    var y := if p.op == CutExit then CutWord(f) else Yam(YProcceed, 2, []);
    CutShape(lu, f);
    assert ys == pre + [y];
    ExitFits(p, n, f);
    ExitPrepared(lu, p, n, f);
    WrittenAs(lu, p, n, f, pre, [y]);
  }

  lemma {:induction false} ExitFits(p: PInstr, n: PInstr, f: Info)
    requires p.op == CutExit || p.op == Procceed
    ensures
      var y := if p.op == CutExit then CutWord(f) else Yam(YProcceed, 2, []);
      FitsExit(y, p, n, f) && !IsPreparation(y.opc)
  {
  }

  lemma {:induction false} ExitPrepared(lu: bool, p: PInstr, n: PInstr, f: Info)
    requires p.op == CutExit || p.op == Procceed
    ensures Protect(lu, f) + (if p.op == CutExit then CheckAlloc(lu, f).0 else []) == Preparations(lu, p, n, f)
  {
    hide CheckAlloc;
    FrameWritten(lu, f);
  }

  lemma {:induction false} DataFits(y: Yam, p: PInstr, n: PInstr)
    requires y.opc == YData && DataFor(p, y.width)
    ensures FitsBranch(y, p, n) && !IsPreparation(y.opc)
  {
    hide ILabels, Entry, DataFor;
  }

  lemma {:induction false} EndWritten(lu: bool, p: PInstr, n: PInstr, f: Info, own: seq<Yam>)
    requires p.op == MarkLive || p.op == MarkInit || (p.op == Label && Marks(n.op))
    requires if p.op == Label then own == [] else |own| == 1 && own[0].opc == YData && DataFor(p, own[0].width)
    ensures Written(lu, p, n, f, YStop(f) + own)
  {
    hide Written, FitsTerm, FitsGoal, FitsExit, FitsBranch, IsPreparation;
    if p.op != Label { DataFits(own[0], p, n); }
    WrittenAs(lu, p, n, f, YStop(f), own);
  }

  lemma {:induction false} BuiltinFits(code: Code, i: nat, f: Info)
    requires IsBuiltin(At(code, i))
    ensures
      var ys := Builtin(code, i, f).yams;
      |ys| == 1 && FitsExit(ys[0], At(code, i), At(code, i + 1), f) && !IsPreparation(ys[0].opc)
  {
    hide IsFunctor2;
    assert IsFunctor2(At(code, i), At(code, i + 1)) <==>
      At(code, i).rnd2 == 10 && (At(code, i + 1).op == FVar || At(code, i + 1).op == F0) by { Functor2Is(code, i); }
  }

  lemma {:induction false} Functor2Is(code: Code, i: nat)
    requires IsBuiltin(At(code, i))
    ensures IsFunctor2(At(code, i), At(code, i + 1)) <==>
      At(code, i).rnd2 == 10 && (At(code, i + 1).op == FVar || At(code, i + 1).op == F0)
  {
  }

  lemma {:induction false} BuiltinWritten(lu: bool, code: Code, i: nat, f: Info)
    requires IsBuiltin(At(code, i))
    ensures Written(lu, At(code, i), At(code, i + 1), f, Builtin(code, i, f).yams)
  {
    hide Written, Preparations, Builtin, FitsTerm, FitsGoal, FitsExit, FitsBranch, IsPreparation;
    var p, n, ys := At(code, i), At(code, i + 1), Builtin(code, i, f).yams;
    BuiltinFits(code, i, f);
    Unprepared(lu, p, n, f);
    WrittenAlone(lu, p, n, f, ys[0]);
    assert ys == [ys[0]];
  }

  lemma {:induction false} VariableFits(lu: bool, code: Code, i: nat, f: Info, ys: seq<Yam>)
    requires IsOther(At(code, i))
    requires
      var op := At(code, i).op;
      || (op == PutVar && ys == Register(PutVar, code, i, f).yams)
      || (op == UnifyVar && ys == UnifyVariable(code, i, f).yams)
      || (op == WriteVar && ys == WriteVariable(code, i, f).yams)
    ensures |ys| == 1 && FitsTerm(ys[0], At(code, i)) && !IsPreparation(ys[0].opc)
  {
    hide VoidRun;
  }

  lemma {:induction false} VariableOwns(lu: bool, p: PInstr, n: PInstr, f: Info)
    requires p.op == PutVar || p.op == UnifyVar || p.op == WriteVar
    ensures Own(lu, p, n, f) == 1 && Preparations(lu, p, n, f) == []
  {
    Unprepared(lu, p, n, f);
  }

  lemma {:induction false} VariableWritten(lu: bool, code: Code, i: nat, f: Info, ys: seq<Yam>)
    requires IsOther(At(code, i))
    requires
      var op := At(code, i).op;
      || (op == PutVar && ys == Register(PutVar, code, i, f).yams)
      || (op == UnifyVar && ys == UnifyVariable(code, i, f).yams)
      || (op == WriteVar && ys == WriteVariable(code, i, f).yams)
    ensures Written(lu, At(code, i), At(code, i + 1), f, ys)
  {
    hide Written, Preparations, Own, IsOther, IsPreparation, Register, UnifyVariable, WriteVariable, At, FitsTerm,
      FitsGoal, FitsExit, FitsBranch;
    VariableFits(lu, code, i, f, ys);
    VariableOwns(lu, At(code, i), At(code, i + 1), f);
    WrittenAlone(lu, At(code, i), At(code, i + 1), f, ys[0]);
    assert ys == [ys[0]];
  }

  /** deallocate takes an execute after it along. */
  predicate TakesNext(p: PInstr, n: PInstr, f: Info) {
    p.op == Deallocate && f.alloc == 1 && n.op == Execute && !n.pred.CPred?
  }

  lemma {:induction false} DeallocateWritten(lu: bool, code: Code, i: nat, f: Info)
    requires At(code, i).op == Deallocate
    ensures
      var p, n := At(code, i), At(code, i + 1);
      if TakesNext(p, n, f) then Written(lu, n, At(code, i + 2), f, DeallocateCode(lu, code, i, f).yams)
      else Written(lu, p, n, f, DeallocateCode(lu, code, i, f).yams)
  {
    hide Written, Preparations, Predicate;
    var p, n := At(code, i), At(code, i + 1);
    if TakesNext(p, n, f) {
      GoalWritten(YDexecute, lu, n, At(code, i + 2), f);
    } else {
      Unprepared(lu, p, n, f);
      if f.alloc == 1 { WrittenAlone(lu, p, n, f, Yam(YDeallocate, 2, [])); } else { WrittenNot(lu, p, n, f); }
    }
  }

  /** What Emit makes of those. */
  lemma {:induction false} EmitVariable(lu: bool, arity: nat, second: bool, code: Code, i: nat, f: Info)
    requires i < |code| && !IsPlain(code[i].op)
    ensures
      var o, op := Emit(lu, arity, second, code, i, f), code[i].op;
      && (op == PutVar ==> o == Register(PutVar, code, i, f))
      && (op == UnifyVar ==> o == UnifyVariable(code, i, f))
      && (op == WriteVar ==> o == WriteVariable(code, i, f))
  {
    hide Plain, Register, UnifyVariable, WriteVariable, DeallocateCode, CheckAlloc, Predicate, CutCode, Protect,
      YStop, Builtin, List, RegisterConst, UnifyConst;
  }

  lemma {:induction false} EmitBuiltin(lu: bool, arity: nat, second: bool, code: Code, i: nat, f: Info)
    requires i < |code| && !IsPlain(code[i].op)
    ensures
      var o, op := Emit(lu, arity, second, code, i, f), code[i].op;
      && (op == Deallocate ==> o == DeallocateCode(lu, code, i, f))
      && (IsBuiltin(code[i]) ==> o == Builtin(code, i, f))
  {
    hide Plain, Register, UnifyVariable, WriteVariable, DeallocateCode, CheckAlloc, Predicate, CutCode, Protect,
      YStop, Builtin, List, RegisterConst, UnifyConst;
  }

  lemma {:induction false} EmitControl(lu: bool, arity: nat, second: bool, code: Code, i: nat, f: Info)
    requires i < |code| && !IsPlain(code[i].op)
    ensures
      var ys, p, op := Emit(lu, arity, second, code, i, f).yams, code[i], code[i].op;
      && (op == PushOr ==> ys == CheckAlloc(lu, f).0)
      && (op == Call ==> ys == Predicate(YCall, lu, p, f).yams)
      && (op == Execute ==> ys == Predicate(YExecute, lu, p, f).yams)
      && (op == EmptyCall ==> ys == [Yam(if f.alloc == 1 && !f.dealloc then YCall else YFcall, 5,
                                         if p.rnd2 != 0 then [p.rnd1] else [])])
      && (op == Cut ==> ys == CutCode(lu, f).yams)
      && (op == CutExit ==> ys == Protect(lu, f) + CutCode(lu, f).yams)
      && (op == Procceed ==> ys == Protect(lu, f) + [Yam(YProcceed, 2, [])])
      && (op == Either ==> ys == CheckAlloc(lu, f).0 + [Yam(YEither, 5, [p.rnd1, Entry(p, 1)])])
  {
    hide Plain, Register, UnifyVariable, WriteVariable, DeallocateCode, CheckAlloc, Predicate, CutCode, Protect,
      YStop, Builtin, List, RegisterConst, UnifyConst;
  }

  lemma {:induction false} EmitMark(lu: bool, arity: nat, second: bool, code: Code, i: nat, f: Info)
    requires i < |code| && !IsPlain(code[i].op)
    ensures
      var ys, p, n, op := Emit(lu, arity, second, code, i, f).yams, code[i], At(code, i + 1), code[i].op;
      && (op == Label ==> ys == if Marks(n.op) then YStop(f) else [])
      && (IsFetch(op) ==> ys == [])
      && (op == MarkLive || op == MarkInit ==>
            && |ys| == |YStop(f)| + 1 && ys[..|YStop(f)|] == YStop(f)
            && ys[|YStop(f)|].opc == YData && DataFor(code[i], ys[|YStop(f)|].width))
  {
    hide Plain, Register, UnifyVariable, WriteVariable, DeallocateCode, CheckAlloc, Predicate, CutCode, Protect,
      YStop, Builtin, List, RegisterConst, UnifyConst;
  }

  lemma {:induction false} FramedWritten(lu: bool, p: PInstr, n: PInstr, f: Info)
    requires p.op == PushOr || p.op == Either
    ensures Written(lu, p, n, f, CheckAlloc(lu, f).0 +
                                 (if p.op == Either then [Yam(YEither, 5, [p.rnd1, Entry(p, 1)])] else []))
  {
    hide Written, CheckAlloc, Entry, FitsTerm, FitsGoal, FitsExit;
    FrameWritten(lu, f);
    WrittenAs(lu, p, n, f, CheckAlloc(lu, f).0, if p.op == Either then [Yam(YEither, 5, [p.rnd1, Entry(p, 1)])]
      else []);
  }

  lemma {:induction false} EmptyCallWritten(lu: bool, p: PInstr, n: PInstr, f: Info)
    requires p.op == EmptyCall
    ensures Written(lu, p, n, f, [Yam(if f.alloc == 1 && !f.dealloc then YCall else YFcall, 5,
                                      if p.rnd2 != 0 then [p.rnd1] else [])])
  {
    hide Written, Preparations, FitsTerm, FitsBranch;
    Unprepared(lu, p, n, f);
    WrittenAlone(lu, p, n, f, Yam(if f.alloc == 1 && !f.dealloc then YCall else YFcall, 5,
      if p.rnd2 != 0 then [p.rnd1] else []));
  }

  lemma {:induction false} NothingWritten(lu: bool, p: PInstr, n: PInstr, f: Info)
    requires IsFetch(p.op) || (p.op == Label && !Marks(n.op))
    ensures Written(lu, p, n, f, [])
  {
    hide Written;
    WrittenNot(lu, p, n, f);
  }

  lemma {:induction false} MixedKinds(p: PInstr)
    requires IsOther(p) && !IsPlain(p.op)
    ensures p.op == PutVar || p.op == UnifyVar || p.op == WriteVar || p.op == Deallocate || p.op == PushOr ||
      p.op == Either || IsGoal(p) || p.op == EmptyCall || IsCut(p) || p.op == Procceed || IsBuiltin(p) ||
      p.op == MarkLive || p.op == MarkInit || p.op == Label || IsFetch(p.op)
  {
  }

  lemma {:induction false} ControlWritten(lu: bool, p: PInstr, n: PInstr, f: Info, ys: seq<Yam>)
    requires p.op == PushOr || p.op == Either || IsGoal(p) || p.op == EmptyCall || IsCut(p) || p.op == Procceed
    requires p.op == PushOr ==> ys == CheckAlloc(lu, f).0
    requires p.op == Either ==> ys == CheckAlloc(lu, f).0 + [Yam(YEither, 5, [p.rnd1, Entry(p, 1)])]
    requires p.op == Call ==> ys == Predicate(YCall, lu, p, f).yams
    requires p.op == Execute ==> ys == Predicate(YExecute, lu, p, f).yams
    requires p.op == EmptyCall ==> ys == [Yam(if f.alloc == 1 && !f.dealloc then YCall else YFcall, 5,
                                              if p.rnd2 != 0 then [p.rnd1] else [])]
    requires p.op == Cut ==> ys == CutCode(lu, f).yams
    requires p.op == CutExit ==> ys == Protect(lu, f) + CutCode(lu, f).yams
    requires p.op == Procceed ==> ys == Protect(lu, f) + [Yam(YProcceed, 2, [])]
    ensures Written(lu, p, n, f, ys)
  {
    hide Written, CheckAlloc, Predicate, CutCode, Protect, Entry;
    if p.op == PushOr || p.op == Either {
      FramedWritten(lu, p, n, f);
      assert CheckAlloc(lu, f).0 + [] == CheckAlloc(lu, f).0;
    } else if IsGoal(p) {
      GoalWritten(if p.op == Call then YCall else YExecute, lu, p, n, f);
    } else if p.op == EmptyCall {
      EmptyCallWritten(lu, p, n, f);
    } else if p.op == Cut {
      CutWritten(lu, p, n, f);
    } else {
      ExitWritten(lu, p, n, f, ys);
    }
  }

  lemma {:induction false} MarksWritten(lu: bool, arity: nat, second: bool, code: Code, i: nat, f: Info)
    requires i < |code| && !IsPlain(code[i].op)
    requires code[i].op == Label || IsFetch(code[i].op) || code[i].op == MarkLive || code[i].op == MarkInit
    ensures Written(lu, code[i], At(code, i + 1), f, Emit(lu, arity, second, code, i, f).yams)
  {
    hide Emit, Written, YStop, IsPlain;
    var p, n := code[i], At(code, i + 1);
    var ys := Emit(lu, arity, second, code, i, f).yams;
    EmitMark(lu, arity, second, code, i, f);
    if p.op == MarkLive || p.op == MarkInit {
      assert ys == YStop(f) + [ys[|YStop(f)|]];
      EndWritten(lu, p, n, f, [ys[|YStop(f)|]]);
    } else if p.op == Label && Marks(n.op) {
      EndWritten(lu, p, n, f, []);
      assert YStop(f) + [] == YStop(f);
    } else {
      NothingWritten(lu, p, n, f);
    }
  }

  lemma {:induction false} MixedWritten(lu: bool, arity: nat, second: bool, code: Code, i: nat, f: Info)
    requires i < |code| && IsOther(code[i]) && !IsPlain(code[i].op) && code[i].op != Deallocate
    ensures Written(lu, code[i], At(code, i + 1), f, Emit(lu, arity, second, code, i, f).yams)
  {
    hide Emit, Written, CheckAlloc, Predicate, Register, UnifyVariable, WriteVariable, Builtin, CutCode, Protect,
      Entry, IsOther, IsPlain, DeallocateCode, Marks;
    var p, n := code[i], At(code, i + 1);
    var ys := Emit(lu, arity, second, code, i, f).yams;
    MixedKinds(p);
    if p.op == Label || IsFetch(p.op) || p.op == MarkLive || p.op == MarkInit {
      MarksWritten(lu, arity, second, code, i, f);
    } else if IsBuiltin(p) || p.op == PutVar || p.op == UnifyVar || p.op == WriteVar {
      EmitVariable(lu, arity, second, code, i, f);
      EmitBuiltin(lu, arity, second, code, i, f);
      if IsBuiltin(p) { BuiltinWritten(lu, code, i, f); } else { VariableWritten(lu, code, i, f, ys); }
    } else {
      EmitControl(lu, arity, second, code, i, f);
      ControlWritten(lu, p, n, f, ys);
    }
  }

  /** try and retry have short forms for two to four arguments. */
  lemma {:induction false} ClauseWidth(lu: bool, arity: nat, second: bool, code: Code, i: nat, f: Info)
    requires i < |code|
    ensures (code[i].op == Try || code[i].op == Retry) && !lu ==>
      var ys := Emit(lu, arity, second, code, i, f).yams;
      ys != [] && ys[0].width == if 2 <= arity <= 4 then 2 else 4
  {
    hide Mixed, TypeSwitch, ILabels, Entry, EffectOf;
  }

  /** Every pseudo-instruction that head and argument code does not have can be read back from what is written for it:
      first what it needs prepared, then its opcode with its own operands and labels. */
  lemma {:induction false} WrittenBack(lu: bool, arity: nat, second: bool, code: Code, i: nat, f: Info)
    requires i < |code| && IsOther(code[i])
    ensures
      var ys, p, n := Emit(lu, arity, second, code, i, f).yams, code[i], At(code, i + 1);
      && (if TakesNext(p, n, f) then Written(lu, n, At(code, i + 2), f, ys) else Written(lu, p, n, f, ys))
      && (p.op == Execute || TakesNext(p, n, f) ==>
            (HasOpcode(ys, YDexecute) <==> TakesNext(p, n, f) && n.pred == User))
      && ((p.op == Try || p.op == Retry) && !lu ==> ys != [] && ys[0].width == if 2 <= arity <= 4 then 2 else 4)
  {
    hide Emit, Written, Predicate, DeallocateCode;
    ClauseWidth(lu, arity, second, code, i, f);
    var p, n := code[i], At(code, i + 1);
    if IsPlain(p.op) {
      PlainWritten(lu, arity, second, code, i, f);
    } else {
      EmitVariable(lu, arity, second, code, i, f);
      EmitBuiltin(lu, arity, second, code, i, f);
      EmitControl(lu, arity, second, code, i, f);
      if p.op == Deallocate {
        DeallocateWritten(lu, code, i, f);
        if TakesNext(p, n, f) {
          GoalWritten(YDexecute, lu, n, At(code, i + 2), f);
          DeallocateTakes(lu, code, i, f);
        }
      } else {
        MixedWritten(lu, arity, second, code, i, f);
        if p.op == Execute { GoalWritten(YExecute, lu, p, n, f); }
      }
    }
  }

  lemma {:induction false} DeallocateTakes(lu: bool, code: Code, i: nat, f: Info)
    requires TakesNext(At(code, i), At(code, i + 1), f)
    ensures DeallocateCode(lu, code, i, f).yams == Predicate(YDexecute, lu, At(code, i + 1), f).yams
    ensures DeallocateCode(lu, code, i, f).used == 2
  {
    hide Predicate;
  }

  // ---------------------------------------------------------------- the room words take

  /** Unify instructions have a second opcode, for write mode. */
  predicate HasTwin(opc: Opcode) {
    match opc
    case YUnifyAtom | YUnifyNAtoms | YUnifyVoid | YUnifyNVoids | YUnifyLNVoids | YUnifyXVar2 | YUnifyLXVar2 => true
    case YUnifyXVar | YUnifyLXVar | YUnifyLYVar | YUnifyXVal | YUnifyYVal | YUnifyLXVal | YUnifyLYVal => true
    case _ => false
  }

  /** One word, with a cell for its opcode, one for each operand and one for a second opcode. */
  predicate HasRoom(ys: seq<Yam>) {
    |ys| == 1 && ys[0].width == |ys[0].args| + if HasTwin(ys[0].opc) then 2 else 1
  }

  lemma {:induction false} RegisterRoom(op: Op, code: Code, i: nat, f: Info)
    ensures HasRoom(Register(op, code, i, f).yams)
  {
    hide Offset;
  }

  lemma {:induction false} ConstantsCount(code: Code, i: nat, n: nat)
    ensures |Constants(code, i, n)| == n
    decreases n
  {
    if n > 0 { ConstantsCount(code, i + 1, n - 1); }
  }

  lemma {:induction false} ConstRoom(opc: Opcode, code: Code, i: nat, f: Info)
    requires opc == YGetAtom || opc == YPutAtom
    ensures HasRoom(RegisterConst(opc, code, i, f).yams)
  {
    hide Constants;
    var n := if At(code, i).rnd2 == 1 then AtomRun(code, i + 1, 2) else 0;
    ConstantsCount(code, i, n + 1);
  }

  lemma {:induction false} ListRoom(code: Code, i: nat, f: Info)
    ensures HasRoom(List(code, i, f).yams)
  {
    hide Offset;
  }

  lemma {:induction false} UnifyRoom(op: Op, code: Code, i: nat, f: Info)
    ensures HasRoom(UnifyConst(op, code, i, f).yams)
    ensures !IsPerm(At(code, i)) ==> HasRoom(UnifyVariable(code, i, f).yams)
  {
    hide ConsRun, VoidRun, Offset;
  }

  lemma {:induction false} LastRoom(lu: bool, arity: nat, code: Code, i: nat)
    requires At(code, i).op == UnifyLastVar || At(code, i).op == UnifyVal || At(code, i).op == UnifyLastVal
    ensures HasRoom(Plain(lu, arity, code, i).0)
  {
    hide Offset;
  }

  /** The words of head and argument code have room for exactly their operands. */
  lemma {:induction false} RoomForOperands(lu: bool, arity: nat, second: bool, code: Code, i: nat, f: Info)
    requires i < |code| && !IsOther(code[i])
    ensures HasRoom(Emit(lu, arity, second, code, i, f).yams)
  {
    hide HasRoom, Register, RegisterConst, List, UnifyConst, UnifyVariable, Plain, WriteVariable, DeallocateCode,
      CheckAlloc, Protect, YStop, CutCode, Predicate, Builtin, Bitmap, Entry, EffectOf;
    var op := code[i].op;
    if op == UnifyLastVar || op == UnifyVal || op == UnifyLastVal {
      LastRoom(lu, arity, code, i);
    } else {
      RegisterRoom(op, code, i, f);
      ConstRoom(YGetAtom, code, i, f);
      ConstRoom(YPutAtom, code, i, f);
      ListRoom(code, i, f);
      UnifyRoom(op, code, i, f);
    }
  }

  // ---------------------------------------------------------------- how far a round goes, and what it notes

  /** Only what is part of the same instruction is passed over: the execute after a deallocate, the switch after a
      cache_arg, the code of [] in a list switch, the second half of functor/3, voids after a void. */
  ghost predicate Passes(lu: bool, code: Code, i: nat, f: Info, o: Out) {
    var p, n := At(code, i), At(code, i + 1);
    if TakesNext(p, n, f) || p.op == CacheArg || (IsFunctor2(p, n) && p.rnd2 == 10) then o.used == 2
    else if p.op == SwitchOnType && IsListSwitch(lu, code, i) then
      && o.used == 3 && |o.yams| == 1
      && o.yams[0].labs == ILabels([Entry(p, 0), Entry(At(code, i + 2), 1), Entry(p, 2), Entry(p, 3)])
    else if p.op == WriteVar && p.ve.Void? then
      && o.used == 1 + VoidRun(code, i + 1, WriteVar)
      && (o.used > 1 ==> o.yams == [Yam(YWriteNVoids, 2, [], [o.used])])
    else o.used == 1
  }

  /** Those are the voids that come next, up to something else. */
  lemma {:induction false} VoidsRun(code: Code, i: nat, op: Op)
    ensures forall j :: i <= j < i + VoidRun(code, i, op) ==> At(code, j).op == op && At(code, j).ve.Void?
    ensures op != Nop ==>
      !(At(code, i + VoidRun(code, i, op)).op == op && At(code, i + VoidRun(code, i, op)).ve.Void?)
    decreases |code| - i
  {
    if i < |code| && code[i].op == op && code[i].ve.Void? { VoidsRun(code, i + 1, op); }
  }

  lemma {:induction false} PlainPasses(lu: bool, arity: nat, second: bool, code: Code, i: nat, f: Info)
    requires i < |code| && IsPlain(code[i].op)
    ensures Passes(lu, code, i, f, Emit(lu, arity, second, code, i, f))
  {
    hide ILabels, Entry, IsListSwitch, Mixed, VoidRun;
  }

  lemma {:induction false} WriteRun(code: Code, i: nat, f: Info)
    ensures
      var o, k := WriteVariable(code, i, f), VoidRun(code, i + 1, WriteVar);
      if At(code, i).ve.Void? then o.used == k + 1 && (k > 0 ==> o.yams == [Yam(YWriteNVoids, 2, [], [k + 1])])
      else o.used == 1
  {
    hide VoidRun;
  }

  lemma {:induction false} WritePasses(lu: bool, code: Code, i: nat, f: Info)
    requires At(code, i).op == WriteVar
    ensures Passes(lu, code, i, f, WriteVariable(code, i, f))
  {
    hide VoidRun, IsListSwitch, WriteVariable, At;
    WriteRun(code, i, f);
  }

  lemma {:induction false} VariablePasses(lu: bool, code: Code, i: nat, f: Info)
    requires IsOther(At(code, i))
    ensures At(code, i).op == PutVar ==> Passes(lu, code, i, f, Register(PutVar, code, i, f))
    ensures At(code, i).op == UnifyVar ==> Passes(lu, code, i, f, UnifyVariable(code, i, f))
    ensures At(code, i).op == Deallocate ==> Passes(lu, code, i, f, DeallocateCode(lu, code, i, f))
    ensures IsBuiltin(At(code, i)) ==> Passes(lu, code, i, f, Builtin(code, i, f))
  {
    hide VoidRun, IsListSwitch, Predicate;
  }

  lemma {:induction false} EmitMixed(lu: bool, arity: nat, second: bool, code: Code, i: nat, f: Info)
    requires i < |code| && !IsPlain(code[i].op)
    ensures Emit(lu, arity, second, code, i, f) == Mixed(lu, second, code, i, f)
  {
    hide IsPlain, Plain, EffectOf, Mixed;
  }

  lemma {:induction false} FrameUsed(lu: bool, arity: nat, second: bool, code: Code, i: nat, f: Info)
    requires i < |code| && (code[i].op == PushOr || code[i].op == Either || IsCut(code[i]))
    ensures Emit(lu, arity, second, code, i, f).used == 1
  {
    hide Plain, Register, UnifyVariable, WriteVariable, DeallocateCode, CheckAlloc, Protect, YStop, Builtin, List,
      RegisterConst, UnifyConst, Bitmap, Entry, Predicate;
  }

  lemma {:induction false} MarkUsed(lu: bool, arity: nat, second: bool, code: Code, i: nat, f: Info)
    requires i < |code|
    requires code[i].op == EmptyCall || code[i].op == Procceed || code[i].op == Label || code[i].op == MarkLive ||
      code[i].op == MarkInit || IsFetch(code[i].op)
    ensures Emit(lu, arity, second, code, i, f).used == 1
  {
    hide Plain, Register, UnifyVariable, WriteVariable, DeallocateCode, CheckAlloc, Protect, YStop, Builtin, List,
      RegisterConst, UnifyConst, Bitmap, Entry, Predicate, CutCode, Marks;
  }

  lemma {:induction false} EmitGoal(lu: bool, arity: nat, second: bool, code: Code, i: nat, f: Info)
    requires i < |code| && IsGoal(code[i])
    ensures Emit(lu, arity, second, code, i, f) ==
              Predicate(if code[i].op == Call then YCall else YExecute, lu, code[i], f)
  {
    hide Plain, Register, UnifyVariable, WriteVariable, DeallocateCode, CheckAlloc, Protect, YStop, Builtin, List,
      RegisterConst, UnifyConst, Bitmap, Entry, Predicate, CutCode, Marks;
  }

  lemma {:induction false} ControlUsed(lu: bool, arity: nat, second: bool, code: Code, i: nat, f: Info)
    requires i < |code| && IsOther(code[i]) && !IsPlain(code[i].op) && code[i].op != Deallocate && code[i].op != PutVar
    requires code[i].op != UnifyVar && code[i].op != WriteVar && !IsBuiltin(code[i])
    ensures Emit(lu, arity, second, code, i, f).used == 1
  {
    hide Emit, Predicate, IsOther, IsPlain;
    MixedKinds(code[i]);
    if IsGoal(code[i]) {
      EmitGoal(lu, arity, second, code, i, f);
      GoalUsed(if code[i].op == Call then YCall else YExecute, lu, code[i], f);
    } else if code[i].op == PushOr || code[i].op == Either || IsCut(code[i]) {
      FrameUsed(lu, arity, second, code, i, f);
    } else {
      MarkUsed(lu, arity, second, code, i, f);
    }
  }

  lemma {:induction false} GoalUsed(opc: Opcode, lu: bool, p: PInstr, f: Info)
    ensures Predicate(opc, lu, p, f).used == 1
  {
    hide CheckAlloc, Bitmap;
  }

  lemma {:induction false} MixedPasses(lu: bool, arity: nat, second: bool, code: Code, i: nat, f: Info)
    requires i < |code| && IsOther(code[i]) && !IsPlain(code[i].op)
    ensures Passes(lu, code, i, f, Emit(lu, arity, second, code, i, f))
  {
    hide Emit, IsOther, IsPlain, Register, UnifyVariable, WriteVariable, DeallocateCode, Builtin, IsListSwitch;
    var p := code[i];
    MixedKinds(p);
    EmitVariable(lu, arity, second, code, i, f);
      EmitBuiltin(lu, arity, second, code, i, f);
    if p.op == WriteVar {
      WritePasses(lu, code, i, f);
    } else if p.op == PutVar || p.op == UnifyVar || p.op == Deallocate || IsBuiltin(p) {
      VariablePasses(lu, code, i, f);
    } else {
      ControlUsed(lu, arity, second, code, i, f);
    }
  }

  // ---------------------------------------------------------------- what is noted

  predicate HasBlob(op: Op) {
    match op
    case GetFloat | PutFloat | GetBlob | PutBlob | UnifyBlob | WriteBlob => true
    case _ => false
  }

  predicate HasTerm(op: Op) { op == GetDbTerm || op == PutDbTerm || op == UnifyDbTerm }

  /** The variables of a pass after an instruction: whether the clause holds blobs and terms, the label tests go to, the
      environment announced and made, and whether it is done with. */
  ghost predicate Notes(second: bool, p: PInstr, n: PInstr, f: Info, g: Info) {
    && g.blobs == (f.blobs || HasBlob(p.op)) && g.dbterm == (f.dbterm || HasTerm(p.op))
    && g.failure == (if p.op == LabelCtl then p.rnd1 else f.failure)
    && g.alloc == (if p.op == Allocate then 2
                   else if f.alloc == 2 && (NeedsFrame(p) || (p.op == Call && p.pred == User)) then 1 else f.alloc)
    && g.dealloc == (if p.op == Deallocate && f.alloc == 1 then true
                     else if p.op == Label || p.op == OrElse || p.op == OrLast then false else f.dealloc)
    && g.ystop == (f.ystop || (p.op == Label && Marks(n.op)) || p.op == MarkLive || p.op == MarkInit)
    && g.noUatom == f.noUatom
    && g.operands == (if !second || !IsFetch(p.op) then f.operands
                      else if p.op == FetchVV then XX else if p.op == FetchVC then XC else CX)
  }

  lemma {:induction false} PlainNotes(lu: bool, arity: nat, second: bool, code: Code, i: nat, f: Info)
    requires i < |code| && IsPlain(code[i].op) && IsOther(code[i])
    ensures Notes(second, code[i], At(code, i + 1), f, Emit(lu, arity, second, code, i, f).info)
  {
    hide Notes, Apply, EffectOf, Mixed, Plain, IsPlain;
    PlainEffect(second, code[i], At(code, i + 1), f);
  }

  lemma {:induction false} EffectIs(p: PInstr)
    requires IsPlain(p.op)
    ensures EffectOf(p.op) ==
      if HasBlob(p.op) then HoldsBlob else if HasTerm(p.op) then HoldsTerm else if p.op == Allocate then Announces
      else if p.op == LabelCtl then Handler else if p.op == OrElse || p.op == OrLast then Branches else None
    ensures !NeedsFrame(p) && p.op != Call && p.op != Deallocate && p.op != Label && p.op != MarkLive &&
      p.op != MarkInit && !IsFetch(p.op)
  {
  }

  lemma {:induction false} PlainEffect(second: bool, p: PInstr, n: PInstr, f: Info)
    requires IsPlain(p.op)
    ensures Notes(second, p, n, f, Apply(EffectOf(p.op), p.rnd1, f))
  {
    hide Marks, IsPlain, EffectOf, NeedsFrame, IsFetch, HasTerm;
    EffectIs(p);
    EffectsApart(p.op);
  }

  lemma {:induction false} EffectsApart(op: Op)
    ensures HasBlob(op) ==> !HasTerm(op)
    ensures HasBlob(op) || HasTerm(op) ==> op != Allocate && op != LabelCtl && op != OrElse && op != OrLast
  {
  }

  lemma {:induction false} SameNotes(second: bool, p: PInstr, n: PInstr, f: Info)
    requires p.op == PutVar || p.op == UnifyVar || p.op == WriteVar || IsBuiltin(p) || p.op == EmptyCall ||
      p.op == Procceed || (p.op == Deallocate && f.alloc != 1)
    ensures Notes(second, p, n, f, f)
  {
  }

  lemma {:induction false} VariableInfo(lu: bool, code: Code, i: nat, f: Info)
    requires IsOther(At(code, i))
    ensures At(code, i).op == PutVar ==> Register(PutVar, code, i, f).info == f
    ensures At(code, i).op == UnifyVar ==> UnifyVariable(code, i, f).info == f
    ensures At(code, i).op == WriteVar ==> WriteVariable(code, i, f).info == f
    ensures IsBuiltin(At(code, i)) ==> Builtin(code, i, f).info == f
  {
    hide VoidRun;
  }

  lemma {:induction false} DeallocateInfo(lu: bool, code: Code, i: nat, f: Info)
    ensures DeallocateCode(lu, code, i, f).info == if f.alloc == 1 then f.(dealloc := true) else f
  {
  }

  lemma {:induction false} FrameInfo(lu: bool, f: Info)
    ensures CheckAlloc(lu, f).1 == if f.alloc == 2 then f.(alloc := 1) else f
    ensures CutCode(lu, f).info == if f.alloc == 2 then f.(alloc := 1) else f
  {
  }

  lemma {:induction false} GoalInfo(opc: Opcode, lu: bool, p: PInstr, f: Info)
    requires if p.op == Call then opc == YCall else p.op == Execute && opc == YExecute
    ensures Predicate(opc, lu, p, f).info ==
              if f.alloc == 2 && (NeedsFrame(p) || (p.op == Call && p.pred == User)) then f.(alloc := 1) else f
  {
    hide Bitmap;
  }

  lemma {:induction false} FrameKinds(p: PInstr)
    requires p.op == PushOr || p.op == Either || IsGoal(p) || IsCut(p)
    ensures !HasBlob(p.op) && !HasTerm(p.op) && !IsFetch(p.op) && p.op != LabelCtl && p.op != Allocate
    ensures p.op != Deallocate && p.op != Label && p.op != OrElse && p.op != OrLast && p.op != MarkLive
    ensures p.op != MarkInit
  {
  }

  lemma {:induction false} FrameNotes(second: bool, p: PInstr, n: PInstr, f: Info)
    requires p.op == PushOr || p.op == Either || IsGoal(p) || IsCut(p)
    ensures Notes(second, p, n, f,
                  if f.alloc == 2 && (NeedsFrame(p) || (p.op == Call && p.pred == User)) then f.(alloc := 1) else f)
  {
    hide HasBlob, HasTerm, IsFetch, NeedsFrame, Marks, IsGoal, IsCut;
    FrameKinds(p);
  }

  /** The variables after a call or a cut. */
  lemma {:induction false} FramedInfo(lu: bool, arity: nat, second: bool, code: Code, i: nat, f: Info)
    requires i < |code| && !IsPlain(code[i].op)
    ensures
      var g, p := Emit(lu, arity, second, code, i, f).info, code[i];
      && (p.op == PushOr || p.op == Either ==> g == CheckAlloc(lu, f).1)
      && (p.op == Call ==> g == Predicate(YCall, lu, p, f).info)
      && (p.op == Execute ==> g == Predicate(YExecute, lu, p, f).info)
      && (IsCut(p) ==> g == CutCode(lu, f).info)
  {
    hide Plain, Register, UnifyVariable, WriteVariable, DeallocateCode, CheckAlloc, Predicate, CutCode, Protect,
      YStop, Builtin, List, RegisterConst, UnifyConst, Bitmap, Entry, Marks, Emit, IsPlain;
    EmitMixed(lu, arity, second, code, i, f);
  }

  /** The variables after an exit or a mark. */
  lemma {:induction false} MarkInfo(lu: bool, arity: nat, second: bool, code: Code, i: nat, f: Info)
    requires i < |code| && !IsPlain(code[i].op)
    ensures
      var g, p, n := Emit(lu, arity, second, code, i, f).info, code[i], At(code, i + 1);
      && (p.op == EmptyCall || p.op == Procceed ==> g == f)
      && (p.op == Label ==> g == f.(ystop := f.ystop || Marks(n.op), dealloc := false))
      && (p.op == MarkLive || p.op == MarkInit ==> g == f.(ystop := true))
      && (IsFetch(p.op) ==> g == if !second then f else f.(operands := if p.op == FetchVV then XX
                                                                       else if p.op == FetchVC then XC else CX))
  {
    hide Plain, Register, UnifyVariable, WriteVariable, DeallocateCode, CheckAlloc, Predicate, CutCode, Protect,
      YStop, Builtin, List, RegisterConst, UnifyConst, Bitmap, Entry, Marks, Emit, IsPlain;
    EmitMixed(lu, arity, second, code, i, f);
  }

  lemma {:induction false} ControlNotes(lu: bool, arity: nat, second: bool, code: Code, i: nat, f: Info)
    requires i < |code| && IsOther(code[i]) && !IsPlain(code[i].op) && code[i].op != Deallocate && code[i].op != PutVar
    requires code[i].op != UnifyVar && code[i].op != WriteVar && !IsBuiltin(code[i])
    ensures Notes(second, code[i], At(code, i + 1), f, Emit(lu, arity, second, code, i, f).info)
  {
    hide Emit, Notes, IsPlain, IsOther, CheckAlloc, Predicate, CutCode, NeedsFrame;
    var p, n := code[i], At(code, i + 1);
    MixedKinds(p);
    FramedInfo(lu, arity, second, code, i, f);
    MarkInfo(lu, arity, second, code, i, f);
    FrameInfo(lu, f);
    if p.op == EmptyCall || p.op == Procceed {
      SameNotes(second, p, n, f);
    } else if IsGoal(p) {
      GoalInfo(if p.op == Call then YCall else YExecute, lu, p, f);
      FrameNotes(second, p, n, f);
    } else if p.op == PushOr || p.op == Either || IsCut(p) {
      assert NeedsFrame(p) by { FrameNeeded(p); }
      FrameNotes(second, p, n, f);
    } else {
      MarkNotes(second, p, n, f);
    }
  }

  lemma {:induction false} FrameNeeded(p: PInstr)
    requires p.op == PushOr || p.op == Either || IsCut(p)
    ensures NeedsFrame(p)
  {
  }

  lemma {:induction false} MarkNotes(second: bool, p: PInstr, n: PInstr, f: Info)
    requires p.op == Label || p.op == MarkLive || p.op == MarkInit || IsFetch(p.op)
    ensures p.op == Label ==> Notes(second, p, n, f, f.(ystop := f.ystop || Marks(n.op), dealloc := false))
    ensures p.op == MarkLive || p.op == MarkInit ==> Notes(second, p, n, f, f.(ystop := true))
    ensures IsFetch(p.op) ==>
      Notes(second, p, n, f, if !second then f else f.(operands := if p.op == FetchVV then XX
                                                                   else if p.op == FetchVC then XC else CX))
  {
    hide Marks;
  }

  /** How far each round of a pass goes over such instructions, and what it notes. */
  lemma {:induction false} RoundIs(lu: bool, arity: nat, second: bool, code: Code, i: nat, f: Info)
    requires i < |code| && IsOther(code[i])
    ensures
      var o := Emit(lu, arity, second, code, i, f);
      Passes(lu, code, i, f, o) && Notes(second, code[i], At(code, i + 1), f, o.info)
  {
    hide Emit, IsOther, IsPlain, Register, UnifyVariable, WriteVariable, DeallocateCode, Builtin, Passes, Notes;
    var p, n := code[i], At(code, i + 1);
    if IsPlain(p.op) {
      PlainPasses(lu, arity, second, code, i, f);
      PlainNotes(lu, arity, second, code, i, f);
    } else {
      MixedPasses(lu, arity, second, code, i, f);
      EmitVariable(lu, arity, second, code, i, f);
      EmitBuiltin(lu, arity, second, code, i, f);
      MixedKinds(p);
      if p.op == Deallocate {
        DeallocateInfo(lu, code, i, f);
        DeallocateNotes(second, p, n, f);
      } else if p.op == PutVar || p.op == UnifyVar || p.op == WriteVar || IsBuiltin(p) {
        VariableInfo(lu, code, i, f);
        SameNotes(second, p, n, f);
      } else {
        ControlNotes(lu, arity, second, code, i, f);
      }
    }
  }

  lemma {:induction false} DeallocateNotes(second: bool, p: PInstr, n: PInstr, f: Info)
    requires p.op == Deallocate
    ensures Notes(second, p, n, f, if f.alloc == 1 then f.(dealloc := true) else f)
  {
  }
}
